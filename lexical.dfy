/**
 Lexical retrieval of `main.py`: Jaccard similarity between the token sets of
 a query and a document, and the choice of the first best-scoring document.
 */
module Lexical {
  import opened Text
  import opened Ratio
  import opened Generation

  const Space: char := ' '

  /** The token set of a string: its lower-cased form split on single spaces. */
  function Tokens(s: string): (r: set<string>)
    ensures r != {}
    ensures forall t :: t in r <==> t in Split(Lower(s), Space)
  {
    var pieces := Split(Lower(s), Space);
    var r := set t | t in pieces;
    assert pieces[0] in r;
    r
  }

  /**
   `jaccard_similarity(query, document)`: shared tokens over all tokens. The
   denominator is the size of a union of non-empty sets, so the quotient is
   always defined, the empty string included.
   */
  function JaccardSimilarity(query: string, document: string): (r: Ratio)
    ensures r.num == |Tokens(query) * Tokens(document)|
    ensures r.den == |Tokens(query) + Tokens(document)|
    ensures r.num <= r.den
    ensures 0.0 <= Value(r) <= 1.0
  {
    var a, b := Tokens(query), Tokens(document);
    assert a * b <= a + b;
    SubsetCardinality(a * b, a + b);
    var t :| t in a;
    assert t in a + b;
    var r := Ratio(|a * b|, |a + b|);
    UnitInterval(r);
    r
  }

  lemma SubsetCardinality<T>(a: set<T>, b: set<T>)
    requires a <= b
    ensures |a| <= |b|
    ensures |a| == |b| ==> a == b
  {
    assert b == a + (b - a);
    assert |b| == |a| + |b - a|;
    if |a| == |b| {
      assert b - a == {};
    }
  }

  /**
   Splitting the empty string gives one empty token, so two empty strings have
   the same single token and score 1; no division by zero arises.
   */
  lemma EmptyStringsScoreOne()
    ensures Tokens("") == {""}
    ensures JaccardSimilarity("", "") == Ratio(1, 1)
  {
    assert Lower("") == "";
    assert Split("", Space) == [""];
  }

  /** The score does not depend on the order of its arguments. */
  lemma Symmetric(query: string, document: string)
    ensures JaccardSimilarity(query, document) == JaccardSimilarity(document, query)
  {
    var a, b := Tokens(query), Tokens(document);
    assert a * b == b * a;
    assert a + b == b + a;
  }

  /** The score is exactly 1 when, and only when, both strings have the same tokens. */
  lemma OneIffSameTokens(query: string, document: string)
    ensures Value(JaccardSimilarity(query, document)) == 1.0 <==> Tokens(query) == Tokens(document)
  {
    var a, b := Tokens(query), Tokens(document);
    var r := JaccardSimilarity(query, document);
    UnitInterval(r);
    SubsetCardinality(a * b, a + b);
    if a * b == a + b {
      assert a == b by {
        forall t | t in a ensures t in b { assert t in a + b; }
        forall t | t in b ensures t in a { assert t in a + b; }
      }
    }
  }

  /** Two strings that agree after lower-casing score exactly 1. */
  lemma EqualLowerScoresOne(query: string, document: string)
    requires Lower(query) == Lower(document)
    ensures JaccardSimilarity(query, document).num == JaccardSimilarity(query, document).den
  {
    OneIffSameTokens(query, document);
    UnitInterval(JaccardSimilarity(query, document));
  }

  /** The score is 0 exactly when the strings share no token. */
  lemma ZeroIffDisjoint(query: string, document: string)
    ensures JaccardSimilarity(query, document).num == 0 <==> Tokens(query) !! Tokens(document)
  {
    var a, b := Tokens(query), Tokens(document);
    if a * b != {} {
      var t :| t in a * b;
      assert t in a && t in b;
      assert |a * b| >= 1;
    } else {
      forall t | t in a ensures t !in b {
        assert t !in a * b;
      }
    }
  }

  /** Replacing either argument by its lower-cased form leaves the score unchanged. */
  lemma CaseInsensitive(query: string, document: string)
    ensures JaccardSimilarity(Lower(query), document) == JaccardSimilarity(query, document)
    ensures JaccardSimilarity(query, Lower(document)) == JaccardSimilarity(query, document)
  {
    LowerIdempotent(query);
    LowerIdempotent(document);
    assert Tokens(Lower(query)) == Tokens(query);
    assert Tokens(Lower(document)) == Tokens(document);
  }

  /** `[jaccard_similarity(query, doc) for doc in external_resources]`. */
  function Similarities(query: string, docs: seq<string>): (r: seq<Ratio>)
    ensures |r| == |docs|
    ensures forall i :: 0 <= i < |docs| ==> r[i] == JaccardSimilarity(query, docs[i])
  {
    seq(|docs|, i requires 0 <= i < |docs| => JaccardSimilarity(query, docs[i]))
  }

  /**
   Python's `max` over the rest of a list, starting from the candidate `best`:
   the candidate is replaced only by a strictly greater item.
   */
  function MaxFrom(best: Ratio, s: seq<Ratio>): Ratio
    decreases |s|
  {
    if s == [] then best else MaxFrom(if Less(best, s[0]) then s[0] else best, s[1..])
  }

  /** `max(s)` for a non-empty list. */
  function Max(s: seq<Ratio>): (m: Ratio)
    requires |s| > 0
    ensures m in s
    ensures forall i :: 0 <= i < |s| ==> AtMost(s[i], m)
  {
    MaxFromBounds(s[0], s[1..]);
    MaxFrom(s[0], s[1..])
  }

  lemma {:induction false} MaxFromBounds(best: Ratio, s: seq<Ratio>)
    ensures MaxFrom(best, s) == best || MaxFrom(best, s) in s
    ensures AtMost(best, MaxFrom(best, s))
    ensures forall i :: 0 <= i < |s| ==> AtMost(s[i], MaxFrom(best, s))
    decreases |s|
  {
    if s != [] {
      var next := if Less(best, s[0]) then s[0] else best;
      MaxFromBounds(next, s[1..]);
      var m := MaxFrom(next, s[1..]);
      assert AtMost(best, next) && AtMost(s[0], next);
      AtMostTransitive(best, next, m);
      AtMostTransitive(s[0], next, m);
      forall i | 0 <= i < |s| ensures AtMost(s[i], m) {
        if i > 0 { assert s[i] == s[1..][i - 1]; }
      }
    }
  }

  /** `s.index(m)`: the first position holding a value equal to `m`. */
  function IndexOf(s: seq<Ratio>, m: Ratio): (k: nat)
    requires exists i :: 0 <= i < |s| && Same(s[i], m)
    ensures k < |s| && Same(s[k], m)
    ensures forall j :: 0 <= j < k ==> !Same(s[j], m)
  {
    if Same(s[0], m) then 0
    else
      assert exists i :: 0 <= i < |s[1..]| && Same(s[1..][i], m) by {
        var i :| 0 <= i < |s| && Same(s[i], m);
        assert s[1..][i - 1] == s[i];
      }
      1 + IndexOf(s[1..], m)
  }

  /**
   The position `retrieve` picks: the first position whose score is the
   maximum of all scores.
   */
  function RetrieveIndex(query: string, docs: seq<string>): (k: nat)
    requires |docs| > 0
    ensures k < |docs|
    ensures forall j :: 0 <= j < |docs| ==>
      AtMost(JaccardSimilarity(query, docs[j]), JaccardSimilarity(query, docs[k]))
    ensures forall j :: 0 <= j < k ==>
      Less(JaccardSimilarity(query, docs[j]), JaccardSimilarity(query, docs[k]))
  {
    var sims := Similarities(query, docs);
    var m := Max(sims);
    var i :| 0 <= i < |sims| && sims[i] == m;
    assert Same(sims[i], m);
    var k := IndexOf(sims, m);
    forall j | 0 <= j < |docs| ensures AtMost(sims[j], sims[k]) {
      SameAtMost(sims[j], m, sims[k]);
    }
    forall j | 0 <= j < k ensures Less(sims[j], sims[k]) {
      AtMostMeansValue(sims[j], m);
      AtMostMeansValue(sims[j], sims[k]);
      AtMostMeansValue(sims[k], m);
    }
    k
  }

  /** `retrieve(query, external_resources)`: the first best-scoring document. */
  function Retrieve(query: string, docs: seq<string>): (d: string)
    requires |docs| > 0
    ensures d in docs
    ensures forall j :: 0 <= j < |docs| ==>
      AtMost(JaccardSimilarity(query, docs[j]), JaccardSimilarity(query, d))
  {
    docs[RetrieveIndex(query, docs)]
  }

  /**
   The tokens of words joined by single spaces are the lower-cased words,
   provided no word holds a space itself.
   */
  lemma TokensOfWords(words: seq<string>)
    requires |words| >= 1
    requires forall k :: 0 <= k < |words| ==> Space !in words[k]
    ensures Tokens(Join(words, Space)) == set t | t in LowerAll(words)
  {
    LowerJoin(words, Space);
    var lowered := LowerAll(words);
    SplitJoin(lowered, Space);
  }

  /**
   `chat_complete` of `main.py`: the request built around the retrieved
   document, and the answer read from the server's reply.
   */
  function ChatComplete<V>(query: string, docs: seq<string>, systemPrompt: string,
                           reply: map<string, V>): (e: Exchange<V>)
    requires |docs| > 0
    ensures IsSubstring(Retrieve(query, docs), e.request.body.prompt)
    ensures IsSubstring(query, e.request.body.prompt)
    ensures e.request.body.prompt == AugmentedPrompt(Retrieve(query, docs), query)
    ensures e.request.body.system == systemPrompt && e.request.body.model == "gemma3:4b"
    ensures !e.request.body.stream
    ensures e.answer.Some? <==> "response" in reply
    ensures e.answer.Some? ==> e.answer.value == reply["response"]
  {
    var context := Retrieve(query, docs);
    PromptContainsContextAndQuery(context, query);
    Exchange(MakeRequest(context, query, systemPrompt), ResponseText(reply))
  }
}
