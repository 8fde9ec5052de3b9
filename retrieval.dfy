/**
 * The embedding loop, the index build and `retrieve_chunks`, which are the
 * same in all three scripts. The embedding model is the function `embed`;
 * the index holds one row per chunk, in chunk order.
 *
 * `retrieve_chunks` maps every label of the search back to `chunks[i]`. A
 * padded label -1 (fewer stored vectors than `top_k`) then reads, by
 * Python's negative indexing, the last chunk. `RetrieveAsWritten` is that
 * code; `RetrieveChunks` drops the padded labels and is what the rest of
 * the model uses.
 */
module Retrieval {
  import opened Wrappers
  import opened L2Index

  /** The text embedded once to learn the dimension `dim`. */
  const Probe: string := "测试"

  /** `top_k` of `answer_query`. */
  const TopK: nat := 3

  function Min(a: nat, b: nat): nat {
    if a <= b then a else b
  }

  /** `chunk_embeddings`: one embedding per chunk, appended in chunk order. */
  method EmbedChunks(chunks: seq<string>, embed: string -> Vector) returns (embs: seq<Vector>)
    ensures |embs| == |chunks|
    ensures forall i :: 0 <= i < |chunks| ==> embs[i] == embed(chunks[i])
  {
    embs := [];
    for i := 0 to |chunks|
      invariant |embs| == i
      invariant forall j :: 0 <= j < i ==> embs[j] == embed(chunks[j])
    {
      var emb := embed(chunks[i]);
      embs := embs + [emb];
    }
  }

  /** Row `i` of the index is the embedding of `chunks[i]`. */
  predicate Embeds(rows: seq<Vector>, chunks: seq<string>, embed: string -> Vector) {
    |rows| == |chunks| && forall i :: 0 <= i < |chunks| ==> rows[i] == embed(chunks[i])
  }

  /** The embedding loop, the probe for `dim`, `faiss.IndexFlatL2(dim)` and
      `index.add`. The add fails, leaving the index empty, when there is no
      chunk or an embedding has another dimension than the probe's. */
  method BuildIndex(chunks: seq<string>, embed: string -> Vector) returns (index: FlatL2Index, ok: bool)
    ensures fresh(index) && index.Valid()
    ensures index.d == |embed(Probe)|
    ensures ok <==> chunks != [] && forall i :: 0 <= i < |chunks| ==> |embed(chunks[i])| == index.d
    ensures ok ==> Embeds(index.rows, chunks, embed)
    ensures !ok ==> index.rows == []
  {
    var embs := EmbedChunks(chunks, embed);
    var dim := |embed(Probe)|;
    index := new FlatL2Index(dim);
    ok := index.Add(embs);
  }

  /** Python's `xs[i]` for `-len(xs) <= i < len(xs)`. */
  function PyIndex<T>(xs: seq<T>, i: int): T
    requires -|xs| <= i < |xs|
  {
    if i >= 0 then xs[i] else xs[|xs| + i]
  }

  /** `[chunks[i] for i in labels]`; `None` is the `IndexError` raised by a
      label out of range. */
  function Pick(chunks: seq<string>, labels: seq<int>): Option<seq<string>> {
    if forall i :: 0 <= i < |labels| ==> -|chunks| <= labels[i] < |chunks| then
      Some(seq(|labels|, i requires 0 <= i < |labels| => PyIndex(chunks, labels[i])))
    else None
  }

  /** `retrieve_chunks(query, top_k)` as written; `None` is an error raised
      by the search or by the indexing. */
  function RetrieveAsWritten(index: FlatL2Index, chunks: seq<string>, embed: string -> Vector,
                             query: string, topK: nat): Option<seq<string>>
    reads index
    requires index.Valid()
  {
    match index.Search(embed(query), topK)
    case None => None
    case Some(labels) => Pick(chunks, labels)
  }

  /** The labels that are not padding, in order. */
  function DropPadding(labels: seq<int>): (r: seq<int>)
    ensures forall i :: 0 <= i < |r| ==> r[i] >= 0
  {
    if labels == [] then []
    else (if labels[0] >= 0 then [labels[0]] else []) + DropPadding(labels[1..])
  }

  /** `retrieve_chunks` with the padded labels dropped. */
  function RetrieveChunks(index: FlatL2Index, chunks: seq<string>, embed: string -> Vector,
                          query: string, topK: nat): Option<seq<string>>
    reads index
    requires index.Valid()
  {
    match index.Search(embed(query), topK)
    case None => None
    case Some(labels) => Pick(chunks, DropPadding(labels))
  }

  /** The labels of the rows found: the first `min(k, n)` rows in ranking
      order. */
  function Hits(rows: seq<Vector>, q: Vector, k: nat): (h: seq<int>)
    requires AllDim(rows, |q|)
    ensures |h| == Min(k, |rows|)
  {
    var r := Rank(rows, q, |rows|);
    seq(Min(k, |rows|), i requires 0 <= i < Min(k, |rows|) => r[i] as int)
  }

  /** The search result is the rows found followed by the padding. */
  lemma KNearestSplit(rows: seq<Vector>, q: Vector, k: nat)
    requires AllDim(rows, |q|)
    ensures KNearest(rows, q, k) == Hits(rows, q, k) + seq(k - Min(k, |rows|), _ => -1)
  {
  }

  lemma {:induction false} DropPaddingOfHits(h: seq<int>, p: nat)
    requires forall i :: 0 <= i < |h| ==> h[i] >= 0
    ensures DropPadding(h + seq(p, _ => -1)) == h
  {
    if h == [] {
      DropPaddingOfPadding(p);
      assert h + seq(p, _ => -1) == seq(p, _ => -1);
    } else {
      assert (h + seq(p, _ => -1))[1..] == h[1..] + seq(p, _ => -1);
      DropPaddingOfHits(h[1..], p);
      assert [h[0]] + h[1..] == h;
    }
  }

  lemma {:induction false} DropPaddingOfPadding(p: nat)
    ensures DropPadding(seq(p, _ => -1)) == []
  {
    if p > 0 {
      assert seq(p, _ => -1)[1..] == seq(p - 1, _ => -1);
      DropPaddingOfPadding(p - 1);
    }
  }

  /** The corrected retrieval keeps exactly the rows found. */
  lemma DropPaddingOfSearch(rows: seq<Vector>, q: Vector, k: nat)
    requires AllDim(rows, |q|)
    ensures DropPadding(KNearest(rows, q, k)) == Hits(rows, q, k)
  {
    KNearestSplit(rows, q, k);
    DropPaddingOfHits(Hits(rows, q, k), k - Min(k, |rows|));
  }

  /** The labels found are distinct rows in ranking order, and no row left
      out is nearer than a row found. */
  lemma HitsFacts(rows: seq<Vector>, q: Vector, k: nat)
    requires AllDim(rows, |q|)
    ensures var h := Hits(rows, q, k);
      && (forall i :: 0 <= i < |h| ==> 0 <= h[i] < |rows|)
      && (forall i, j :: 0 <= i < j < |h| ==> h[i] != h[j] && SqDist(q, rows[h[i]]) <= SqDist(q, rows[h[j]]))
      && (forall i, j :: 0 <= i < |h| && 0 <= j < |rows| && j !in h ==> SqDist(q, rows[h[i]]) <= SqDist(q, rows[j]))
  {
    HitsOrdered(rows, q, k);
    HitsNearest(rows, q, k);
  }

  /** The labels found are distinct rows in ranking order. */
  lemma HitsOrdered(rows: seq<Vector>, q: Vector, k: nat)
    requires AllDim(rows, |q|)
    ensures var h := Hits(rows, q, k);
      && (forall i :: 0 <= i < |h| ==> 0 <= h[i] < |rows|)
      && (forall i, j :: 0 <= i < j < |h| ==> h[i] != h[j] && SqDist(q, rows[h[i]]) <= SqDist(q, rows[h[j]]))
  {
    var h := Hits(rows, q, k);
    var labels := KNearest(rows, q, k);
    KNearestFacts(rows, q, k);
    assert forall i :: 0 <= i < |h| ==> h[i] == labels[i];
    forall i, j | 0 <= i < j < |h|
      ensures h[i] != h[j] && SqDist(q, rows[h[i]]) <= SqDist(q, rows[h[j]])
    {
      assert Before(rows, q, labels[i] as nat, labels[j] as nat);
    }
  }

  /** No row left out of the labels found is nearer than one of them. */
  lemma HitsNearest(rows: seq<Vector>, q: Vector, k: nat)
    requires AllDim(rows, |q|)
    ensures var h := Hits(rows, q, k);
      forall i, j :: 0 <= i < |h| && 0 <= j < |rows| && j !in h ==> SqDist(q, rows[h[i]]) <= SqDist(q, rows[j])
  {
    var h := Hits(rows, q, k);
    var labels := KNearest(rows, q, k);
    KNearestNearest(rows, q, k);
    assert forall i :: 0 <= i < |h| ==> h[i] == labels[i];
    forall j | 0 <= j < |rows| && j !in h
      ensures j !in labels
    {
      forall b | 0 <= b < |labels|
        ensures labels[b] != j
      {
        if b < |h| {
          assert labels[b] == h[b];
        }
      }
    }
  }

  /** The corrected retrieval returns `min(top_k, len(chunks))` chunks: those
      whose embeddings are nearest to the query's, in nondecreasing distance,
      with no chunk left out that is nearer than one returned. It fails only
      for a query embedding of another dimension or `top_k == 0`. */
  lemma RetrieveChunksFacts(index: FlatL2Index, chunks: seq<string>, embed: string -> Vector,
                            query: string, topK: nat)
    requires index.Valid() && Embeds(index.rows, chunks, embed)
    ensures var r := RetrieveChunks(index, chunks, embed, query, topK);
      && (r.Some? <==> |embed(query)| == index.d && topK >= 1)
      && (r.Some? ==>
            var q := embed(query);
            var h := Hits(index.rows, q, topK);
            && |r.value| == |h| == Min(topK, |chunks|)
            && (forall i :: 0 <= i < |h| ==> 0 <= h[i] < |chunks| && r.value[i] == chunks[h[i]])
            && (forall i, j :: 0 <= i < j < |h| ==>
                  h[i] != h[j] && SqDist(q, embed(chunks[h[i]])) <= SqDist(q, embed(chunks[h[j]])))
            && (forall i, j :: 0 <= i < |h| && 0 <= j < |chunks| && j !in h ==>
                  SqDist(q, embed(chunks[h[i]])) <= SqDist(q, embed(chunks[j]))))
  {
    var q := embed(query);
    if |q| == index.d && topK >= 1 {
      DropPaddingOfSearch(index.rows, q, topK);
      HitsFacts(index.rows, q, topK);
    }
  }

  /** Indexing with in-range labels followed by `p` padded labels gives the
      chunks of those labels followed by `p` copies of the last chunk. */
  lemma PickPadded(chunks: seq<string>, h: seq<int>, p: nat)
    requires chunks != [] && forall i :: 0 <= i < |h| ==> 0 <= h[i] < |chunks|
    ensures Pick(chunks, h).Some?
    ensures Pick(chunks, h + seq(p, _ => -1)) == Some(Pick(chunks, h).value + seq(p, _ => chunks[|chunks| - 1]))
  {
    var labels := h + seq(p, _ => -1);
    var want := Pick(chunks, h).value + seq(p, _ => chunks[|chunks| - 1]);
    assert forall i :: 0 <= i < |labels| ==> -|chunks| <= labels[i] < |chunks|;
    var all := Pick(chunks, labels).value;
    var front := Pick(chunks, h).value;
    assert |all| == |want|;
    forall i | 0 <= i < |all|
      ensures all[i] == want[i]
    {
      if i < |h| {
        assert labels[i] == h[i];
        assert all[i] == front[i] == want[i];
      } else {
        assert labels[i] == -1;
        assert all[i] == chunks[|chunks| - 1] == want[i];
      }
    }
    assert all == want;
  }

  /** As written, every padded label reads the last chunk: the result is the
      corrected one followed by `top_k - len(chunks)` copies of the last chunk,
      and with no chunk at all the indexing raises. */
  lemma AsWrittenPadsWithLast(index: FlatL2Index, chunks: seq<string>, embed: string -> Vector,
                              query: string, topK: nat)
    requires index.Valid() && Embeds(index.rows, chunks, embed)
    requires |embed(query)| == index.d && topK >= 1
    ensures RetrieveChunks(index, chunks, embed, query, topK).Some?
    ensures chunks != [] ==>
      RetrieveAsWritten(index, chunks, embed, query, topK) ==
        Some(RetrieveChunks(index, chunks, embed, query, topK).value +
             seq(topK - Min(topK, |chunks|), _ => chunks[|chunks| - 1]))
    ensures chunks == [] ==> RetrieveAsWritten(index, chunks, embed, query, topK) == None
  {
    var q := embed(query);
    var h := Hits(index.rows, q, topK);
    var p := topK - Min(topK, |chunks|);
    KNearestSplit(index.rows, q, topK);
    DropPaddingOfSearch(index.rows, q, topK);
    HitsFacts(index.rows, q, topK);
    assert index.Search(q, topK) == Some(h + seq(p, _ => -1));
    assert RetrieveChunks(index, chunks, embed, query, topK) == Pick(chunks, h);
    if chunks == [] {
      assert (h + seq(p, _ => -1))[0] == -1;
    } else {
      PickPadded(chunks, h, p);
    }
  }

  /** With a single chunk, the corrected retrieval returns it once, and the
      code as written returns it `top_k` times. */
  lemma SingleChunkRetrieval(index: FlatL2Index, c: string, embed: string -> Vector,
                             query: string, topK: nat)
    requires index.Valid() && Embeds(index.rows, [c], embed)
    requires |embed(query)| == index.d && topK >= 1
    ensures RetrieveChunks(index, [c], embed, query, topK) == Some([c])
    ensures RetrieveAsWritten(index, [c], embed, query, topK) == Some(seq(topK, _ => c))
  {
    AsWrittenPadsWithLast(index, [c], embed, query, topK);
    RetrieveChunksFacts(index, [c], embed, query, topK);
    var r := RetrieveChunks(index, [c], embed, query, topK).value;
    var h := Hits(index.rows, embed(query), topK);
    assert |r| == 1 && r[0] == [c][h[0]] == c;
    assert r == [c];
    assert r + seq(topK - 1, _ => c) == seq(topK, _ => c);
  }

  /** With at least `top_k` chunks there is no padding, and the code as
      written returns what the corrected retrieval does. */
  lemma AsWrittenAgrees(index: FlatL2Index, chunks: seq<string>, embed: string -> Vector,
                        query: string, topK: nat)
    requires index.Valid() && Embeds(index.rows, chunks, embed)
    requires topK <= |chunks|
    ensures RetrieveAsWritten(index, chunks, embed, query, topK) == RetrieveChunks(index, chunks, embed, query, topK)
  {
    if |embed(query)| == index.d && topK >= 1 {
      AsWrittenPadsWithLast(index, chunks, embed, query, topK);
      var r := RetrieveChunks(index, chunks, embed, query, topK);
      assert r.value + seq(0, _ => chunks[|chunks| - 1]) == r.value;
    }
  }

  /** A query whose embedding is the embedding of a chunk gets first the
      first chunk with that embedding, at distance 0. */
  lemma RetrieveExactMatch(index: FlatL2Index, chunks: seq<string>, embed: string -> Vector,
                           query: string, topK: nat, m: nat)
    requires index.Valid() && Embeds(index.rows, chunks, embed)
    requires topK >= 1 && m < |chunks| && embed(query) == embed(chunks[m])
    ensures var r := RetrieveChunks(index, chunks, embed, query, topK);
      r.Some? && r.value != [] &&
      exists j :: 0 <= j <= m && r.value[0] == chunks[j] && embed(chunks[j]) == embed(query) &&
        forall l :: 0 <= l < j ==> embed(chunks[l]) != embed(query)
  {
    var q := embed(query);
    RetrieveChunksFacts(index, chunks, embed, query, topK);
    ExactMatchFirst(index.rows, q, topK, m);
    var h := Hits(index.rows, q, topK);
    var labels := KNearest(index.rows, q, topK);
    KNearestSplit(index.rows, q, topK);
    assert h[0] == labels[0];
    var j := h[0];
    assert RetrieveChunks(index, chunks, embed, query, topK).value[0] == chunks[j];
  }
}
