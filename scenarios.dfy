/**
 The demonstration data of `main.py` as concrete cases: the query
 "Who created Python (programming language)?" against the five-sentence
 knowledge base selects the sentence about Guido van Rossum. Each sentence
 is written as its words joined by single spaces, which is the sentence
 itself; the word lists are passed as parameters equal to the constants so
 that the verifier does not unfold the functions on whole sentences at once.
 */
module Scenarios {
  import opened Text
  import opened Ratio
  import opened Lexical

  const QueryWords: seq<string> := ["Who", "created", "Python", "(programming", "language)?"]
  const Doc0Words: seq<string> := ["Python", "is", "a", "programming", "language", "created", "by", "Guido", "van", "Rossum", "in", "1991."]
  const Doc1Words: seq<string> := ["Python", "is", "known", "for", "its", "simplicity", "and", "readability."]
  const Doc2Words: seq<string> := ["Python", "supports", "procedural,", "object-oriented,", "and", "functional", "programming."]
  const Doc3Words: seq<string> := ["The", "Python", "Package", "Index", "(PyPI)", "is", "the", "official", "repository", "for", "3rd-party", "Python", "software."]
  const Doc4Words: seq<string> := ["Python", "uses", "indentation", "to", "define", "code", "blocks."]

  const KnowledgeBase: seq<string> :=
    [Join(Doc0Words, Space), Join(Doc1Words, Space), Join(Doc2Words, Space), Join(Doc3Words, Space),
     Join(Doc4Words, Space)]

  lemma QueryNoSpace(w: seq<string>)
    requires w == QueryWords
    ensures forall k :: 0 <= k < |w| ==> Space !in w[k]
  {
  }

  lemma QueryLowered(w: seq<string>)
    requires w == QueryWords
    ensures LowerAll(w) == ["who", "created", "python", "(programming", "language)?"]
  {
    var l := LowerAll(w);
    assert l[0] == "who" by { assert Lower("Who") == "who"; }
    assert l[1] == "created" by { assert Lower("created") == "created"; }
    assert l[2] == "python" by { assert Lower("Python") == "python"; }
    assert l[3] == "(programming" by { assert Lower("(programming") == "(programming"; }
    assert l[4] == "language)?" by { assert Lower("language)?") == "language)?"; }
  }

  lemma QueryTokenSet(l: seq<string>)
    requires l == ["who", "created", "python", "(programming", "language)?"]
    ensures (set t | t in l) == {"who", "created", "python", "(programming", "language)?"}
  {
  }

  lemma QueryTokens(w: seq<string>)
    requires w == QueryWords
    ensures Tokens(Join(w, Space)) == {"who", "created", "python", "(programming", "language)?"}
  {
    QueryNoSpace(w);
    QueryLowered(w);
    TokensOfWords(w);
    QueryTokenSet(LowerAll(w));
  }

  lemma Doc0NoSpace(w: seq<string>)
    requires w == Doc0Words
    ensures forall k :: 0 <= k < |w| ==> Space !in w[k]
  {
  }

  lemma Doc0Lowered(w: seq<string>)
    requires w == Doc0Words
    ensures LowerAll(w) == ["python", "is", "a", "programming", "language", "created", "by", "guido", "van", "rossum", "in", "1991."]
  {
    var l := LowerAll(w);
    assert l[0] == "python" by { assert Lower("Python") == "python"; }
    assert l[1] == "is" by { assert Lower("is") == "is"; }
    assert l[2] == "a" by { assert Lower("a") == "a"; }
    assert l[3] == "programming" by { assert Lower("programming") == "programming"; }
    assert l[4] == "language" by { assert Lower("language") == "language"; }
    assert l[5] == "created" by { assert Lower("created") == "created"; }
    assert l[6] == "by" by { assert Lower("by") == "by"; }
    assert l[7] == "guido" by { assert Lower("Guido") == "guido"; }
    assert l[8] == "van" by { assert Lower("van") == "van"; }
    assert l[9] == "rossum" by { assert Lower("Rossum") == "rossum"; }
    assert l[10] == "in" by { assert Lower("in") == "in"; }
    assert l[11] == "1991." by { assert Lower("1991.") == "1991."; }
  }

  lemma Doc0TokenSet(l: seq<string>)
    requires l == ["python", "is", "a", "programming", "language", "created", "by", "guido", "van", "rossum", "in", "1991."]
    ensures (set t | t in l) == {"python", "is", "a", "programming", "language", "created", "by", "guido", "van", "rossum", "in", "1991."}
  {
  }

  lemma Doc0Tokens(w: seq<string>)
    requires w == Doc0Words
    ensures Tokens(Join(w, Space)) == {"python", "is", "a", "programming", "language", "created", "by", "guido", "van", "rossum", "in", "1991."}
  {
    Doc0NoSpace(w);
    Doc0Lowered(w);
    TokensOfWords(w);
    Doc0TokenSet(LowerAll(w));
  }

  lemma Doc1NoSpace(w: seq<string>)
    requires w == Doc1Words
    ensures forall k :: 0 <= k < |w| ==> Space !in w[k]
  {
  }

  lemma Doc1Lowered(w: seq<string>)
    requires w == Doc1Words
    ensures LowerAll(w) == ["python", "is", "known", "for", "its", "simplicity", "and", "readability."]
  {
    var l := LowerAll(w);
    assert l[0] == "python" by { assert Lower("Python") == "python"; }
    assert l[1] == "is" by { assert Lower("is") == "is"; }
    assert l[2] == "known" by { assert Lower("known") == "known"; }
    assert l[3] == "for" by { assert Lower("for") == "for"; }
    assert l[4] == "its" by { assert Lower("its") == "its"; }
    assert l[5] == "simplicity" by { assert Lower("simplicity") == "simplicity"; }
    assert l[6] == "and" by { assert Lower("and") == "and"; }
    assert l[7] == "readability." by { assert Lower("readability.") == "readability."; }
  }

  lemma Doc1TokenSet(l: seq<string>)
    requires l == ["python", "is", "known", "for", "its", "simplicity", "and", "readability."]
    ensures (set t | t in l) == {"python", "is", "known", "for", "its", "simplicity", "and", "readability."}
  {
  }

  lemma Doc1Tokens(w: seq<string>)
    requires w == Doc1Words
    ensures Tokens(Join(w, Space)) == {"python", "is", "known", "for", "its", "simplicity", "and", "readability."}
  {
    Doc1NoSpace(w);
    Doc1Lowered(w);
    TokensOfWords(w);
    Doc1TokenSet(LowerAll(w));
  }

  lemma Doc2NoSpace(w: seq<string>)
    requires w == Doc2Words
    ensures forall k :: 0 <= k < |w| ==> Space !in w[k]
  {
  }

  lemma Doc2Lowered(w: seq<string>)
    requires w == Doc2Words
    ensures LowerAll(w) == ["python", "supports", "procedural,", "object-oriented,", "and", "functional", "programming."]
  {
    var l := LowerAll(w);
    assert l[0] == "python" by { assert Lower("Python") == "python"; }
    assert l[1] == "supports" by { assert Lower("supports") == "supports"; }
    assert l[2] == "procedural," by { assert Lower("procedural,") == "procedural,"; }
    assert l[3] == "object-oriented," by { assert Lower("object-oriented,") == "object-oriented,"; }
    assert l[4] == "and" by { assert Lower("and") == "and"; }
    assert l[5] == "functional" by { assert Lower("functional") == "functional"; }
    assert l[6] == "programming." by { assert Lower("programming.") == "programming."; }
  }

  lemma Doc2TokenSet(l: seq<string>)
    requires l == ["python", "supports", "procedural,", "object-oriented,", "and", "functional", "programming."]
    ensures (set t | t in l) == {"python", "supports", "procedural,", "object-oriented,", "and", "functional", "programming."}
  {
  }

  lemma Doc2Tokens(w: seq<string>)
    requires w == Doc2Words
    ensures Tokens(Join(w, Space)) == {"python", "supports", "procedural,", "object-oriented,", "and", "functional", "programming."}
  {
    Doc2NoSpace(w);
    Doc2Lowered(w);
    TokensOfWords(w);
    Doc2TokenSet(LowerAll(w));
  }

  lemma Doc3NoSpace(w: seq<string>)
    requires w == Doc3Words
    ensures forall k :: 0 <= k < |w| ==> Space !in w[k]
  {
  }

  lemma Doc3Lowered(w: seq<string>)
    requires w == Doc3Words
    ensures LowerAll(w) == ["the", "python", "package", "index", "(pypi)", "is", "the", "official", "repository", "for", "3rd-party", "python", "software."]
  {
    var l := LowerAll(w);
    assert l[0] == "the" by { assert Lower("The") == "the"; }
    assert l[1] == "python" by { assert Lower("Python") == "python"; }
    assert l[2] == "package" by { assert Lower("Package") == "package"; }
    assert l[3] == "index" by { assert Lower("Index") == "index"; }
    assert l[4] == "(pypi)" by { assert Lower("(PyPI)") == "(pypi)"; }
    assert l[5] == "is" by { assert Lower("is") == "is"; }
    assert l[6] == "the" by { assert Lower("the") == "the"; }
    assert l[7] == "official" by { assert Lower("official") == "official"; }
    assert l[8] == "repository" by { assert Lower("repository") == "repository"; }
    assert l[9] == "for" by { assert Lower("for") == "for"; }
    assert l[10] == "3rd-party" by { assert Lower("3rd-party") == "3rd-party"; }
    assert l[11] == "python" by { assert Lower("Python") == "python"; }
    assert l[12] == "software." by { assert Lower("software.") == "software."; }
  }

  lemma Doc3TokenSet(l: seq<string>)
    requires l == ["the", "python", "package", "index", "(pypi)", "is", "the", "official", "repository", "for", "3rd-party", "python", "software."]
    ensures (set t | t in l) == {"the", "python", "package", "index", "(pypi)", "is", "official", "repository", "for", "3rd-party", "software."}
  {
  }

  lemma Doc3Tokens(w: seq<string>)
    requires w == Doc3Words
    ensures Tokens(Join(w, Space)) == {"the", "python", "package", "index", "(pypi)", "is", "official", "repository", "for", "3rd-party", "software."}
  {
    Doc3NoSpace(w);
    Doc3Lowered(w);
    TokensOfWords(w);
    Doc3TokenSet(LowerAll(w));
  }

  lemma Doc4NoSpace(w: seq<string>)
    requires w == Doc4Words
    ensures forall k :: 0 <= k < |w| ==> Space !in w[k]
  {
  }

  lemma Doc4Lowered(w: seq<string>)
    requires w == Doc4Words
    ensures LowerAll(w) == ["python", "uses", "indentation", "to", "define", "code", "blocks."]
  {
    var l := LowerAll(w);
    assert l[0] == "python" by { assert Lower("Python") == "python"; }
    assert l[1] == "uses" by { assert Lower("uses") == "uses"; }
    assert l[2] == "indentation" by { assert Lower("indentation") == "indentation"; }
    assert l[3] == "to" by { assert Lower("to") == "to"; }
    assert l[4] == "define" by { assert Lower("define") == "define"; }
    assert l[5] == "code" by { assert Lower("code") == "code"; }
    assert l[6] == "blocks." by { assert Lower("blocks.") == "blocks."; }
  }

  lemma Doc4TokenSet(l: seq<string>)
    requires l == ["python", "uses", "indentation", "to", "define", "code", "blocks."]
    ensures (set t | t in l) == {"python", "uses", "indentation", "to", "define", "code", "blocks."}
  {
  }

  lemma Doc4Tokens(w: seq<string>)
    requires w == Doc4Words
    ensures Tokens(Join(w, Space)) == {"python", "uses", "indentation", "to", "define", "code", "blocks."}
  {
    Doc4NoSpace(w);
    Doc4Lowered(w);
    TokensOfWords(w);
    Doc4TokenSet(LowerAll(w));
  }

  lemma Counts0()
    ensures |{"who", "created", "python", "(programming", "language)?"} * {"python", "is", "a", "programming", "language", "created", "by", "guido", "van", "rossum", "in", "1991."}| == 2
    ensures |{"who", "created", "python", "(programming", "language)?"} + {"python", "is", "a", "programming", "language", "created", "by", "guido", "van", "rossum", "in", "1991."}| == 15
  {
    var a := {"who", "created", "python", "(programming", "language)?"};
    var b := {"python", "is", "a", "programming", "language", "created", "by", "guido", "van", "rossum", "in", "1991."};
    assert |a| == 5 && |b| == 12;
    assert a * b == {"created", "python"};
    assert |a + b| + |a * b| == |a| + |b|;
  }

  lemma Counts1()
    ensures |{"who", "created", "python", "(programming", "language)?"} * {"python", "is", "known", "for", "its", "simplicity", "and", "readability."}| == 1
    ensures |{"who", "created", "python", "(programming", "language)?"} + {"python", "is", "known", "for", "its", "simplicity", "and", "readability."}| == 12
  {
    var a := {"who", "created", "python", "(programming", "language)?"};
    var b := {"python", "is", "known", "for", "its", "simplicity", "and", "readability."};
    assert |a| == 5 && |b| == 8;
    assert a * b == {"python"};
    assert |a + b| + |a * b| == |a| + |b|;
  }

  lemma Counts2()
    ensures |{"who", "created", "python", "(programming", "language)?"} * {"python", "supports", "procedural,", "object-oriented,", "and", "functional", "programming."}| == 1
    ensures |{"who", "created", "python", "(programming", "language)?"} + {"python", "supports", "procedural,", "object-oriented,", "and", "functional", "programming."}| == 11
  {
    var a := {"who", "created", "python", "(programming", "language)?"};
    var b := {"python", "supports", "procedural,", "object-oriented,", "and", "functional", "programming."};
    assert |a| == 5 && |b| == 7;
    assert a * b == {"python"};
    assert |a + b| + |a * b| == |a| + |b|;
  }

  lemma Counts3()
    ensures |{"who", "created", "python", "(programming", "language)?"} * {"the", "python", "package", "index", "(pypi)", "is", "official", "repository", "for", "3rd-party", "software."}| == 1
    ensures |{"who", "created", "python", "(programming", "language)?"} + {"the", "python", "package", "index", "(pypi)", "is", "official", "repository", "for", "3rd-party", "software."}| == 15
  {
    var a := {"who", "created", "python", "(programming", "language)?"};
    var b := {"the", "python", "package", "index", "(pypi)", "is", "official", "repository", "for", "3rd-party", "software."};
    assert |a| == 5 && |b| == 11;
    assert a * b == {"python"};
    assert |a + b| + |a * b| == |a| + |b|;
  }

  lemma Counts4()
    ensures |{"who", "created", "python", "(programming", "language)?"} * {"python", "uses", "indentation", "to", "define", "code", "blocks."}| == 1
    ensures |{"who", "created", "python", "(programming", "language)?"} + {"python", "uses", "indentation", "to", "define", "code", "blocks."}| == 11
  {
    var a := {"who", "created", "python", "(programming", "language)?"};
    var b := {"python", "uses", "indentation", "to", "define", "code", "blocks."};
    assert |a| == 5 && |b| == 7;
    assert a * b == {"python"};
    assert |a + b| + |a * b| == |a| + |b|;
  }

  /** The score of two strings from their token sets. */
  lemma ScoreFromTokens(q: string, d: string, a: set<string>, b: set<string>)
    requires Tokens(q) == a && Tokens(d) == b
    ensures JaccardSimilarity(q, d) == Ratio(|a * b|, |a + b|)
  {
  }

  /** With the tokens of the demonstration data, the first sentence has the strictly best score. */
  lemma FirstSentenceWins(q: string, kb: seq<string>)
    requires |kb| == 5
    requires Tokens(q) == {"who", "created", "python", "(programming", "language)?"}
    requires Tokens(kb[0]) == {"python", "is", "a", "programming", "language", "created", "by", "guido", "van", "rossum", "in", "1991."}
    requires Tokens(kb[1]) == {"python", "is", "known", "for", "its", "simplicity", "and", "readability."}
    requires Tokens(kb[2]) == {"python", "supports", "procedural,", "object-oriented,", "and", "functional", "programming."}
    requires Tokens(kb[3]) == {"the", "python", "package", "index", "(pypi)", "is", "official", "repository", "for", "3rd-party", "software."}
    requires Tokens(kb[4]) == {"python", "uses", "indentation", "to", "define", "code", "blocks."}
    ensures RetrieveIndex(q, kb) == 0
  {
    var a := Tokens(q);
    ScoreFromTokens(q, kb[0], a, Tokens(kb[0])); Counts0();
    ScoreFromTokens(q, kb[1], a, Tokens(kb[1])); Counts1();
    ScoreFromTokens(q, kb[2], a, Tokens(kb[2])); Counts2();
    ScoreFromTokens(q, kb[3], a, Tokens(kb[3])); Counts3();
    ScoreFromTokens(q, kb[4], a, Tokens(kb[4])); Counts4();
  }

  /** `retrieve("Who created Python (programming language)?", knowledge_base)` is the first sentence. */
  lemma DemoRetrievesCreator()
    ensures Retrieve(Join(QueryWords, Space), KnowledgeBase) == Join(Doc0Words, Space)
  {
    QueryTokens(QueryWords);
    Doc0Tokens(Doc0Words); Doc1Tokens(Doc1Words); Doc2Tokens(Doc2Words);
    Doc3Tokens(Doc3Words); Doc4Tokens(Doc4Words);
    FirstSentenceWins(Join(QueryWords, Space), KnowledgeBase);
  }
}
