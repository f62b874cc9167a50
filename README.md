# simple-rag: retrieval and prompt building, modelled in Dafny

The repository has two small Retrieval-Augmented Generation scripts. Given a
question and a fixed list of text snippets, each script picks the relevant
snippet(s), puts them into a prompt template, and posts the prompt to a local
Ollama server. The model covers the pure logic of both scripts:

- `main.py` (module `Lexical`): `jaccard_similarity` and `retrieve`. The text
  is tokenised by lower-casing it and splitting it on single spaces, then
  scored as |A ∩ B| / |A ∪ B| over the two token sets. `retrieve` returns the
  first document with the highest score.
- `01-semantic-rag/main.py` (module `Semantic`): the part of
  `semantic_retrieval` after the cross-encoder has ranked the corpus. It keeps
  the documents whose rank entry reaches the threshold (0.5 by default), in
  rank order, and joins them with single spaces.
- In both scripts, `chat_complete` (module `Generation`, shared): the prompt
  template, the request (model `gemma3:4b`, prompt, system prompt,
  `stream: false`, JSON header, POST to `http://localhost:11434/api/generate`,
  timeout 180) and `response.get("response", None)`. Both scripts contain the
  same code for this, so it is defined once.

Supporting modules:

- `Text`: ASCII lower-casing, Python's `str.split(sep)` and `sep.join`.
- `Ratio`: scores as a natural numerator over a positive denominator, compared
  by cross-multiplication.
- `Wrappers`: `Option`.
- `Scenarios`: the demonstration data of `main.py` as a proved concrete case.

Two facts about the code that its annotations and docstrings leave implicit:

- Scoring never divides by zero, not even for empty strings. `"".split(" ")`
  is `[""]`, so every token set has at least one element and every union is
  non-empty. The denominator is positive by type, and
  `Lexical.EmptyStringsScoreOne` shows that two empty strings score 1.
- `semantic_retrieval` is annotated `-> list[str]`, but it returns the joined
  `str`, as its docstring says. The model returns a string.

## Model

| member | source | states |
|---|---|---|
| `Text.Lower` | main.py:18-19 | the lowered string has the same length, and each character is lowered on its own |
| `Text.LowerIdempotent` | main.py:18-19 | lowering an already lowered string changes nothing |
| `Text.Split` | main.py:18-19 | `split(" ")` always gives at least one piece, and no piece contains the separator |
| `Text.JoinSplit` | main.py:18-19 | joining the pieces of a split with the same separator gives back the original string, so splitting loses nothing |
| `Text.SplitJoin` | 01-semantic-rag/main.py:40 | when the pieces contain no separator, splitting their join gives back exactly those pieces |
| `Text.Join` | 01-semantic-rag/main.py:40 | joining no pieces gives `""`; joining one piece gives that piece unchanged |
| `Text.JoinSnoc` | 01-semantic-rag/main.py:40 | adding one more piece adds exactly one separator and then the piece |
| `Text.JoinLength` | 01-semantic-rag/main.py:40 | the length of the join is the total length of the pieces plus one separator between each pair of neighbours |
| `Text.JoinPieces` | 01-semantic-rag/main.py:40 | the join contains each piece verbatim at its offset, in order, with exactly one separator after every piece but the last, and nothing else |
| `Text.JoinEmpty` | 01-semantic-rag/main.py:40 | the join is empty exactly when there are no pieces, or one empty piece |
| `Ratio.AtMostMeansValue` | main.py:25 | comparing by cross-multiplication gives the same result as comparing the quotients, for `<=`, `<` and `==` |
| `Ratio.AtMostTransitive` | main.py:41 | the score order is transitive |
| `Ratio.SameAtMost` | main.py:41 | a score at most `b` is also at most any score equal in value to `b` |
| `Ratio.UnitInterval` | main.py:25 | a score is at least 0; it is at most 1 exactly when numerator ≤ denominator, and equal to 1 exactly when they are equal |
| `Lexical.Tokens` | main.py:18-19 | the token set is never empty, and it holds exactly the pieces of the lowered string split on spaces |
| `Lexical.JaccardSimilarity` | main.py:17-25 | the score is intersection size over union size, with a positive denominator, and lies in [0, 1] |
| `Lexical.EmptyStringsScoreOne` | main.py:18-25 | `""` has the single token `""`, so two empty strings score exactly 1 |
| `Lexical.Symmetric` | main.py:18-25 | swapping query and document leaves the score unchanged |
| `Lexical.OneIffSameTokens` | main.py:18-25 | the score is 1 exactly when the two token sets are equal |
| `Lexical.EqualLowerScoresOne` | main.py:17-25 | two strings that are equal after lower-casing score exactly 1 |
| `Lexical.ZeroIffDisjoint` | main.py:22-25 | the score is 0 exactly when the two strings share no token |
| `Lexical.CaseInsensitive` | main.py:18-19 | replacing either argument with its lowered form leaves the score unchanged |
| `Lexical.TokensOfWords` | main.py:18-19 | for words without spaces, the tokens of the words joined by single spaces are the lowered words |
| `Lexical.Similarities` | main.py:39 | one score per document, in corpus order |
| `Lexical.Max` | main.py:41 | `max` returns one of the scores, and no score is greater than it |
| `Lexical.MaxFromBounds` | main.py:41 | the left-to-right scan, which replaces its candidate only on a strictly greater item, returns a value that is at least its start and at least every item |
| `Lexical.IndexOf` | main.py:41 | `index` returns the first position whose score equals the value searched for |
| `Lexical.RetrieveIndex` | main.py:39-41 | the chosen position is in range and its score is at least every score; every earlier position scores strictly less, so ties go to the first maximum |
| `Lexical.Retrieve` | main.py:27-43 | on a non-empty corpus, the result is one of the documents, and no document scores higher |
| `Lexical.ChatComplete` | main.py:58-84 | the prompt is the template around the retrieved document and the query, and contains both; the payload has model `gemma3:4b`, the system prompt and `stream` false; there is an answer exactly when the reply has a `"response"` key |
| `Generation.AugmentedPrompt` | main.py:61-68 | the prompt is the template's opening, then the context verbatim, then the middle text, then the query verbatim, then the closing text, each at a fixed offset |
| `Generation.PromptContainsContextAndQuery` | main.py:61-68 | the context and the query each appear in the prompt as a contiguous substring |
| `Generation.PromptDeterminesParts` | 01-semantic-rag/main.py:58-65 | given the length of the query, the prompt determines both the context and the query |
| `Generation.MakeRequest` | main.py:70-81 | POST to the fixed server URL with the JSON header and a 180 s timeout; the body has model `gemma3:4b`, the augmented prompt, the system prompt and `stream` false |
| `Generation.ResponseText` | 01-semantic-rag/main.py:81 | the result is `Some` of the `"response"` value exactly when that key is present, and `None` otherwise; it never fails |
| `Generation.ResponsePresent` | main.py:84 | a reply carrying `"response": v` yields exactly `v` |
| `Generation.ResponseAbsent` | main.py:84 | a reply without the key yields `None` |
| `Semantic.RelevantDocs` | 01-semantic-rag/main.py:36-38 | the filtered list is never longer than the ranking |
| `Semantic.KeptIndices` | 01-semantic-rag/main.py:37 | the positions of the rank entries that reach the threshold: all of them, and only them, in increasing order |
| `Semantic.KeptInRankOrder` | 01-semantic-rag/main.py:36-38 | the k-th kept document is the corpus document of the k-th rank entry that reaches the threshold, and there are no other kept documents |
| `Semantic.KeptIffPassing` | 01-semantic-rag/main.py:36-38 | a document is kept exactly when some rank entry that reaches the threshold names it |
| `Semantic.NothingKept` | 01-semantic-rag/main.py:36-38 | nothing is kept exactly when no rank entry reaches the threshold |
| `Semantic.ThresholdMonotone` | 01-semantic-rag/main.py:37 | raising the threshold keeps a subsequence of what the lower threshold kept |
| `Semantic.RankedDocs` | 01-semantic-rag/main.py:33-37 | the documents of all rank entries, in rank order |
| `Semantic.KeptSubsequenceOfRanking` | 01-semantic-rag/main.py:36-38 | the kept documents form a subsequence of the ranked documents, so they come in rank order, not corpus order |
| `Semantic.SemanticRetrieval` | 01-semantic-rag/main.py:15-40 | the result is `""` when no entry reaches the threshold, and is the single kept document unchanged when only one is kept; otherwise each kept document appears verbatim, in rank order, at its offset (the total length of the earlier documents plus one per earlier document), followed by exactly one `' '` unless it is the last, and the length is exactly that |
| `Semantic.ChatComplete` | 01-semantic-rag/main.py:55-81 | the prompt is the template around the context kept at the default threshold 0.5 and the query; the payload and the answer are as in the lexical script |
| `Semantic.DemoTwoRelevant` | 01-semantic-rag/main.py:36-40 | with two entries at or above 0.5, the context is those two documents, best-ranked first, separated by one space |
| `Scenarios.FirstSentenceWins` | main.py:39-43 | with the token sets of the demonstration data, the first sentence wins (scores 2/15 against 1/12, 1/11, 1/15, 1/11) |
| `Scenarios.DemoRetrievesCreator` | main.py:92-100 | `retrieve("Who created Python (programming language)?", knowledge_base)` returns the Guido van Rossum sentence |

## Left out

- The HTTP POST, the parsing of the reply body with `.json()` and the 180 s
  timeout are network I/O. The request is modelled as a record, and the decoded
  reply is an input map. A reply that is not valid JSON, or not a JSON object,
  is not modelled.
- Loading the cross-encoder and the way `model.rank` scores documents are a
  foreign neural model. The ranking is an input sequence of
  (corpus position, score) entries, so `semantic_retrieval`'s `query` argument
  does not appear in the model.
- `Semantic.RelevantDocs` requires that every entry reaching the threshold
  names a corpus position. Python evaluates the filter before it indexes, so
  entries below the threshold are not constrained. Negative (wrap-around)
  indices are not modelled, because the ranking never produces them.
- Floating point: a Jaccard score is an exact ratio of two naturals, and
  semantic scores are `real`s. Rounding is not modelled, so two ratios that
  differ but round to the same float are treated as different by
  `Lexical.IndexOf`. NaN scores are not modelled.
- `Text.Lower` lower-cases ASCII letters only; Python's Unicode lower-casing
  (for example of accented letters) is not modelled.
- `Lexical.Retrieve`: on an empty corpus the source raises from `max`. The
  model excludes this case with a precondition instead of modelling the error.
- The `__main__` blocks, `input()` and `print` are console I/O. The
  demonstration corpus of `main.py` is used in `Scenarios`, where each
  sentence is written as its word list joined by single spaces.
