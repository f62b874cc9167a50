/**
 Semantic retrieval of `01-semantic-rag/main.py`. The cross-encoder's ranking
 is an input: a sequence of (corpus position, score) entries in the model's
 rank order. The script keeps the documents whose score reaches the
 threshold, in rank order, and joins them with single spaces.
 */
module Semantic {
  import opened Text
  import opened Generation

  const DefaultThreshold: real := 0.5

  /** One entry of `model.rank(query, corpus)`. */
  datatype Rank = Rank(corpusId: nat, score: real)

  /** Every entry that passes the threshold names a document of the corpus. */
  predicate Resolvable(corpus: seq<string>, ranks: seq<Rank>, threshold: real)
  {
    forall i :: 0 <= i < |ranks| && ranks[i].score >= threshold ==> ranks[i].corpusId < |corpus|
  }

  lemma ResolvableSuffix(corpus: seq<string>, ranks: seq<Rank>, threshold: real, from: nat)
    requires from <= |ranks| && Resolvable(corpus, ranks, threshold)
    ensures Resolvable(corpus, ranks[from..], threshold)
  {
    forall i | 0 <= i < |ranks[from..]| && ranks[from..][i].score >= threshold
      ensures ranks[from..][i].corpusId < |corpus|
    {
      assert ranks[from..][i] == ranks[from + i];
    }
  }

  /** `[corpus[rank["corpus_id"]] for rank in ranks if rank["score"] >= score_threshold]`. */
  function RelevantDocs(corpus: seq<string>, ranks: seq<Rank>, threshold: real): (r: seq<string>)
    requires Resolvable(corpus, ranks, threshold)
    ensures |r| <= |ranks|
    decreases |ranks|
  {
    if ranks == [] then []
    else
      ResolvableSuffix(corpus, ranks, threshold, 1);
      var rest := RelevantDocs(corpus, ranks[1..], threshold);
      if ranks[0].score >= threshold then [corpus[ranks[0].corpusId]] + rest else rest
  }

  /**
   The positions in `ranks`, from `from` on, whose score reaches the
   threshold, in increasing order and all of them.
   */
  function KeptIndices(ranks: seq<Rank>, threshold: real, from: nat): (idx: seq<nat>)
    requires from <= |ranks|
    ensures forall k :: 0 <= k < |idx| ==> from <= idx[k] < |ranks| && ranks[idx[k]].score >= threshold
    ensures forall k, l :: 0 <= k < l < |idx| ==> idx[k] < idx[l]
    ensures forall i :: from <= i < |ranks| && ranks[i].score >= threshold ==> i in idx
    decreases |ranks| - from
  {
    if from == |ranks| then []
    else
      var rest := KeptIndices(ranks, threshold, from + 1);
      if ranks[from].score >= threshold then [from] + rest else rest
  }

  lemma {:induction false} RelevantDocsFrom(corpus: seq<string>, ranks: seq<Rank>, threshold: real, from: nat)
    requires from <= |ranks| && Resolvable(corpus, ranks, threshold)
    ensures Resolvable(corpus, ranks[from..], threshold)
    ensures |RelevantDocs(corpus, ranks[from..], threshold)| == |KeptIndices(ranks, threshold, from)|
    ensures forall k :: 0 <= k < |KeptIndices(ranks, threshold, from)| ==>
      RelevantDocs(corpus, ranks[from..], threshold)[k]
        == corpus[ranks[KeptIndices(ranks, threshold, from)[k]].corpusId]
    decreases |ranks| - from
  {
    ResolvableSuffix(corpus, ranks, threshold, from);
    if from < |ranks| {
      RelevantDocsFrom(corpus, ranks, threshold, from + 1);
      assert ranks[from..][1..] == ranks[from + 1..];
      assert ranks[from..][0] == ranks[from];
    }
  }

  /**
   The kept documents are exactly the documents of the entries that reach the
   threshold, one per such entry, in the order of the ranking.
   */
  lemma KeptInRankOrder(corpus: seq<string>, ranks: seq<Rank>, threshold: real)
    requires Resolvable(corpus, ranks, threshold)
    ensures var idx := KeptIndices(ranks, threshold, 0);
      && |RelevantDocs(corpus, ranks, threshold)| == |idx|
      && forall k :: 0 <= k < |idx| ==>
        RelevantDocs(corpus, ranks, threshold)[k] == corpus[ranks[idx[k]].corpusId]
  {
    RelevantDocsFrom(corpus, ranks, threshold, 0);
    assert ranks[0..] == ranks;
  }

  /**
   A document is kept exactly when some entry that reaches the threshold names
   it; entries below the threshold contribute nothing.
   */
  lemma KeptIffPassing(corpus: seq<string>, ranks: seq<Rank>, threshold: real, d: string)
    requires Resolvable(corpus, ranks, threshold)
    ensures d in RelevantDocs(corpus, ranks, threshold) <==>
      exists i :: 0 <= i < |ranks| && ranks[i].score >= threshold && corpus[ranks[i].corpusId] == d
  {
    KeptInRankOrder(corpus, ranks, threshold);
    var r := RelevantDocs(corpus, ranks, threshold);
    var idx := KeptIndices(ranks, threshold, 0);
    if d in r {
      var k :| 0 <= k < |r| && r[k] == d;
      assert ranks[idx[k]].score >= threshold && corpus[ranks[idx[k]].corpusId] == d;
    }
    if exists i :: 0 <= i < |ranks| && ranks[i].score >= threshold && corpus[ranks[i].corpusId] == d {
      var i :| 0 <= i < |ranks| && ranks[i].score >= threshold && corpus[ranks[i].corpusId] == d;
      assert i in idx;
      var k :| 0 <= k < |idx| && idx[k] == i;
      assert r[k] == d;
    }
  }

  /** No document is kept exactly when no entry reaches the threshold. */
  lemma {:induction false} NothingKept(corpus: seq<string>, ranks: seq<Rank>, threshold: real)
    requires Resolvable(corpus, ranks, threshold)
    ensures RelevantDocs(corpus, ranks, threshold) == [] <==>
      forall i :: 0 <= i < |ranks| ==> ranks[i].score < threshold
  {
    KeptInRankOrder(corpus, ranks, threshold);
    var idx := KeptIndices(ranks, threshold, 0);
    if idx != [] {
      assert ranks[idx[0]].score >= threshold;
    }
  }

  /** `a` is `b` with some elements left out, the rest in the same order. */
  predicate Subsequence<T(==)>(a: seq<T>, b: seq<T>)
    decreases |b|
  {
    if a == [] then true
    else if b == [] then false
    else (a[0] == b[0] && Subsequence(a[1..], b[1..])) || Subsequence(a, b[1..])
  }

  /** Raising the threshold keeps a subsequence of what the lower threshold keeps. */
  lemma {:induction false} ThresholdMonotone(corpus: seq<string>, ranks: seq<Rank>, low: real, high: real)
    requires low <= high
    requires Resolvable(corpus, ranks, low)
    ensures Resolvable(corpus, ranks, high)
    ensures Subsequence(RelevantDocs(corpus, ranks, high), RelevantDocs(corpus, ranks, low))
    decreases |ranks|
  {
    if ranks != [] {
      ResolvableSuffix(corpus, ranks, low, 1);
      ThresholdMonotone(corpus, ranks[1..], low, high);
      var restLow := RelevantDocs(corpus, ranks[1..], low);
      var restHigh := RelevantDocs(corpus, ranks[1..], high);
      if ranks[0].score >= high {
        var x := corpus[ranks[0].corpusId];
        assert ([x] + restHigh)[1..] == restHigh && ([x] + restLow)[1..] == restLow;
      } else if ranks[0].score >= low && restHigh != [] {
        var x := corpus[ranks[0].corpusId];
        assert ([x] + restLow)[1..] == restLow;
      }
    }
  }

  /** Every entry of the ranking names a document of the corpus. */
  predicate AllResolvable(corpus: seq<string>, ranks: seq<Rank>)
  {
    forall i :: 0 <= i < |ranks| ==> ranks[i].corpusId < |corpus|
  }

  /** The documents of all entries, in rank order. */
  function RankedDocs(corpus: seq<string>, ranks: seq<Rank>): (r: seq<string>)
    requires AllResolvable(corpus, ranks)
    ensures |r| == |ranks|
    ensures forall i :: 0 <= i < |ranks| ==> r[i] == corpus[ranks[i].corpusId]
  {
    seq(|ranks|, i requires 0 <= i < |ranks| => corpus[ranks[i].corpusId])
  }

  /** The kept documents keep the order of the ranking, not that of the corpus. */
  lemma {:induction false} KeptSubsequenceOfRanking(corpus: seq<string>, ranks: seq<Rank>, threshold: real)
    requires AllResolvable(corpus, ranks)
    ensures Resolvable(corpus, ranks, threshold)
    ensures Subsequence(RelevantDocs(corpus, ranks, threshold), RankedDocs(corpus, ranks))
    decreases |ranks|
  {
    if ranks != [] {
      KeptSubsequenceOfRanking(corpus, ranks[1..], threshold);
      var all := RankedDocs(corpus, ranks);
      assert all[1..] == RankedDocs(corpus, ranks[1..]);
      var rest := RelevantDocs(corpus, ranks[1..], threshold);
      if ranks[0].score >= threshold {
        assert ([all[0]] + rest)[1..] == rest;
      }
    }
  }

  /**
   `semantic_retrieval(query, corpus, score_threshold)` on the ranking the
   model produced: the kept documents joined by single spaces. The query
   only influences the ranking, which is an input here.
   */
  function SemanticRetrieval(corpus: seq<string>, ranks: seq<Rank>, threshold: real): (r: string)
    requires Resolvable(corpus, ranks, threshold)
    ensures (forall i :: 0 <= i < |ranks| ==> ranks[i].score < threshold) ==> r == ""
    ensures |RelevantDocs(corpus, ranks, threshold)| == 1 ==> r == RelevantDocs(corpus, ranks, threshold)[0]
    ensures var kept := RelevantDocs(corpus, ranks, threshold);
      |kept| >= 1 ==>
        && |r| == Offset(kept, |kept| - 1) + |kept[|kept| - 1]|
        && (forall k :: 0 <= k < |kept| ==>
              Offset(kept, k) + |kept[k]| <= |r| && r[Offset(kept, k)..Offset(kept, k) + |kept[k]|] == kept[k])
        && (forall k :: 0 <= k < |kept| - 1 ==>
              Offset(kept, k) + |kept[k]| < |r| && r[Offset(kept, k) + |kept[k]|] == ' ')
  {
    var docs := RelevantDocs(corpus, ranks, threshold);
    NothingKept(corpus, ranks, threshold);
    if |docs| >= 1 then
      JoinPieces(docs, ' ');
      Join(docs, ' ')
    else
      Join(docs, ' ')
  }

  /**
   `chat_complete` of the semantic script: the request for the context the
   default threshold keeps, and the answer read from the server's reply.
   */
  function ChatComplete<V>(query: string, corpus: seq<string>, ranks: seq<Rank>, systemPrompt: string,
                           reply: map<string, V>): (e: Exchange<V>)
    requires Resolvable(corpus, ranks, DefaultThreshold)
    ensures e.request.body.prompt == AugmentedPrompt(SemanticRetrieval(corpus, ranks, 0.5), query)
    ensures e.request.body.system == systemPrompt && e.request.body.model == "gemma3:4b"
    ensures !e.request.body.stream
    ensures e.answer.Some? <==> "response" in reply
    ensures e.answer.Some? ==> e.answer.value == reply["response"]
  {
    Exchange(MakeRequest(SemanticRetrieval(corpus, ranks, DefaultThreshold), query, systemPrompt),
      ResponseText(reply))
  }

  /**
   A ranking of the seven-sentence knowledge base of the semantic script in
   which two entries reach the default threshold: the context is those two
   sentences, best first, separated by one space.
   */
  lemma DemoTwoRelevant(corpus: seq<string>)
    requires |corpus| == 7
    ensures SemanticRetrieval(corpus, [Rank(5, 0.72), Rank(0, 0.5), Rank(6, 0.31)], DefaultThreshold)
      == corpus[5] + " " + corpus[0]
  {
    var ranks := [Rank(5, 0.72), Rank(0, 0.5), Rank(6, 0.31)];
    assert RelevantDocs(corpus, ranks, DefaultThreshold) == [corpus[5], corpus[0]] by {
      assert ranks[1..] == [Rank(0, 0.5), Rank(6, 0.31)];
      assert ranks[1..][1..] == [Rank(6, 0.31)];
    }
  }
}
