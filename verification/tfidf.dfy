/** SimpleEmbeddings: the TF-IDF vectorizer. Fitting builds a vocabulary (token ->
    column) and an IDF table from a corpus; transforming maps a text to a vector with
    one column per vocabulary token. The natural logarithm is a parameter `ln`. */
module Tfidf {
  import opened Outcomes
  import opened Seqs
  import opened Strings

  type Vector = seq<real>

  /** The state of a SimpleEmbeddings object. */
  datatype Embedder = Embedder(vocabulary: map<string, nat>, idfScores: map<string, real>, fitted: bool)

  /** A freshly constructed, unfitted SimpleEmbeddings. */
  const Unfitted: Embedder := Embedder(map[], map[], false)

  /** `_tokenize`: the maximal runs of word characters of the lower-cased text. */
  function Tokenize(text: string): seq<string> {
    Runs(Lower(text), IsWordChar)
  }

  /** The tokens are non-empty and, joined together, are exactly the word
      characters of the lower-cased text, in order. */
  lemma TokenizeSpec(text: string)
    ensures forall k :: 0 <= k < |Tokenize(text)| ==>
              |Tokenize(text)[k]| > 0 && AllIn(Tokenize(text)[k], IsWordChar)
    ensures Flatten(Tokenize(text)) == Filter(Lower(text), IsWordChar)
  {
  }

  /** The tokens of every document of the corpus, document after document. */
  function CorpusTokens(docs: seq<string>): seq<string>
    decreases |docs|
  {
    if docs == [] then [] else Tokenize(docs[0]) + CorpusTokens(docs[1..])
  }

  /** Some document of the corpus has `t` among its tokens. */
  ghost predicate InSomeDocument(docs: seq<string>, t: string) {
    exists i :: 0 <= i < |docs| && t in Tokenize(docs[i])
  }

  lemma InSomeDocumentCons(docs: seq<string>, t: string)
    requires docs != []
    ensures InSomeDocument(docs, t) <==> t in Tokenize(docs[0]) || InSomeDocument(docs[1..], t)
  {
    if InSomeDocument(docs[1..], t) {
      var i :| 0 <= i < |docs[1..]| && t in Tokenize(docs[1..][i]);
      assert docs[i + 1] == docs[1..][i];
    }
    if InSomeDocument(docs, t) && t !in Tokenize(docs[0]) {
      var i :| 0 <= i < |docs| && t in Tokenize(docs[i]);
      assert docs[1..][i - 1] == docs[i];
    }
  }

  /** A token of the corpus is a token of one of its documents, and back. */
  lemma {:induction false} InCorpusTokens(docs: seq<string>, t: string)
    ensures t in CorpusTokens(docs) <==> InSomeDocument(docs, t)
    decreases |docs|
  {
    if docs != [] {
      InCorpusTokens(docs[1..], t);
      InSomeDocumentCons(docs, t);
    }
  }

  /** Every corpus token has a document frequency of at least 1. */
  lemma CorpusTokensOccur(docs: seq<string>)
    ensures forall t :: t in CorpusTokens(docs) ==> DocFreq(docs, t) >= 1
  {
    forall t | t in CorpusTokens(docs)
      ensures DocFreq(docs, t) >= 1
    {
      InCorpusTokens(docs, t);
    }
  }

  /** Number of documents whose token set contains `t`: at most the number of
      documents, and at least 1 exactly when some document contains `t`. */
  function DocFreq(docs: seq<string>, t: string): (d: nat)
    ensures d <= |docs|
    ensures d >= 1 <==> InSomeDocument(docs, t)
    decreases |docs|
  {
    if docs == [] then 0
    else
      InSomeDocumentCons(docs, t);
      (if t in Tokenize(docs[0]) then 1 else 0) + DocFreq(docs[1..], t)
  }

  /** `vocabulary` is a bijection from its tokens onto the columns 0 .. |vocabulary|-1. */
  ghost predicate IsColumnIndex(vocabulary: map<string, nat>) {
    && (forall t :: t in vocabulary ==> vocabulary[t] < |vocabulary|)
    && (forall t, u :: t in vocabulary && u in vocabulary && vocabulary[t] == vocabulary[u] ==> t == u)
    && (forall j :: 0 <= j < |vocabulary| ==> j in vocabulary.Values)
  }

  /** The vocabulary of `fit`: every distinct token numbered in first-seen order. */
  function BuildVocabulary(tokens: seq<string>): (v: map<string, nat>)
    ensures v.Keys == set t | t in tokens
    ensures IsColumnIndex(v)
  {
    var u := Distinct(tokens);
    var v := map t | t in u :: FirstIndex(u, t);
    assert v.Keys == set t | t in u;
    DistinctCardinality(u);
    forall j | 0 <= j < |v|
      ensures j in v.Values
    {
      assert u[j] in v && v[u[j]] == j by {
        var k := FirstIndex(u, u[j]);
        assert u[k] == u[j];
      }
    }
    v
  }

  /** The quotient `n / d` as a real number. */
  function Ratio(n: nat, d: nat): real
    requires d >= 1
  {
    n as real / d as real
  }

  /** A quotient of a positive count by a total at least as large lies in (0, 1]. */
  lemma RatioBounds(n: nat, d: nat)
    requires 1 <= n <= d
    ensures 0.0 < Ratio(n, d) <= 1.0
  {
    var q := Ratio(n, d);
    assert q * d as real == n as real;
  }

  /** `idf` is defined exactly for the corpus tokens and holds `ln(N / d(t))` for
      each, where `N` is the number of documents and `d(t)`, with `1 <= d(t) <= N`,
      the number containing `t`. */
  ghost predicate IdfTable(docs: seq<string>, ln: real -> real, idf: map<string, real>) {
    && idf.Keys == set t | t in CorpusTokens(docs)
    && forall t :: t in idf ==>
         && 1 <= DocFreq(docs, t) <= |docs|
         && idf[t] == ln(Ratio(|docs|, DocFreq(docs, t)))
  }

  /** `_compute_idf`: the IDF table of the corpus. */
  function ComputeIdf(docs: seq<string>, ln: real -> real): (idf: map<string, real>)
    ensures IdfTable(docs, ln, idf)
  {
    CorpusTokensOccur(docs);
    var idf := map t | t in CorpusTokens(docs) :: ln(Ratio(|docs|, DocFreq(docs, t)));
    assert idf.Keys == set t | t in CorpusTokens(docs);
    idf
  }

  /** `fit`: the vocabulary and the IDF table range over exactly the corpus tokens,
      the vocabulary numbers them 0 .. n-1 without gaps or repeats, and the model is
      marked fitted. */
  function Fit(docs: seq<string>, ln: real -> real): (e: Embedder)
    ensures && e.fitted
            && e.vocabulary.Keys == set t | t in CorpusTokens(docs)
            && IsColumnIndex(e.vocabulary)
            && e.idfScores.Keys == e.vocabulary.Keys
            && IdfTable(docs, ln, e.idfScores)
  {
    var vocabulary := BuildVocabulary(CorpusTokens(docs));
    var idf := ComputeIdf(docs, ln);
    assert idf.Keys == vocabulary.Keys;
    Embedder(vocabulary, idf, true)
  }

  /** `count / total` for a token of the text: positive and at most 1. */
  function TermFrequency(tokens: seq<string>, t: string): (tf: real)
    requires t in tokens
    ensures 0.0 < tf <= 1.0
  {
    var n := Count(tokens, t);
    RatioBounds(n, |tokens|);
    Ratio(n, |tokens|)
  }

  /** `idf_scores.get(t, 0)`. */
  function IdfOr0(e: Embedder, t: string): real {
    if t in e.idfScores then e.idfScores[t] else 0.0
  }

  /** The value column `t` should hold for a text with tokens `tokens`: TF times IDF
      when the text has the token, 0 otherwise. */
  function Weight(e: Embedder, tokens: seq<string>, t: string): real {
    if t in tokens then TermFrequency(tokens, t) * IdfOr0(e, t) else 0.0
  }

  function Zeros(n: nat): (v: Vector)
    ensures |v| == n && forall j :: 0 <= j < n ==> v[j] == 0.0
  {
    seq(n, j => 0.0)
  }

  /** The loop of `transform`: for each distinct token in first-seen order (the order
      of the Counter), write its weight into its column if it has one. A column id
      outside the vector is an IndexError. */
  function Scatter(e: Embedder, tokens: seq<string>, todo: seq<string>, vec: Vector): Result<Vector>
    requires forall k :: 0 <= k < |todo| ==> todo[k] in tokens
    decreases |todo|
  {
    if todo == [] then Success(vec)
    else
      var t := todo[0];
      if t !in e.vocabulary then Scatter(e, tokens, todo[1..], vec)
      else if e.vocabulary[t] >= |vec| then Failure(IndexOutOfRange)
      else Scatter(e, tokens, todo[1..], vec[e.vocabulary[t] := Weight(e, tokens, t)])
  }

  /** `transform`: fails before `fit`; otherwise scatters the weights of the text's
      tokens into a zero vector of vocabulary length. */
  function Transform(e: Embedder, text: string): (r: Result<Vector>)
    ensures !e.fitted ==> r == Failure(NotFitted)
  {
    if !e.fitted then Failure(NotFitted)
    else
      var tokens := Tokenize(text);
      Scatter(e, tokens, Distinct(tokens), Zeros(|e.vocabulary|))
  }

  /** The state every fitted or re-loaded model is in. */
  ghost predicate WellFormed(e: Embedder) {
    e.fitted && IsColumnIndex(e.vocabulary)
  }

  ghost predicate ColumnsBelow(vocabulary: map<string, nat>, n: nat) {
    && (forall t :: t in vocabulary ==> vocabulary[t] < n)
    && (forall t, u :: t in vocabulary && u in vocabulary && vocabulary[t] == vocabulary[u] ==> t == u)
  }

  lemma {:induction false} ScatterWritesWeights(e: Embedder, tokens: seq<string>, todo: seq<string>, vec: Vector)
    requires forall k :: 0 <= k < |todo| ==> todo[k] in tokens
    requires ColumnsBelow(e.vocabulary, |vec|)
    requires forall t :: t in e.vocabulary && t !in todo ==> vec[e.vocabulary[t]] == Weight(e, tokens, t)
    ensures Scatter(e, tokens, todo, vec).Success?
    ensures |Scatter(e, tokens, todo, vec).value| == |vec|
    ensures forall t :: t in e.vocabulary ==>
              Scatter(e, tokens, todo, vec).value[e.vocabulary[t]] == Weight(e, tokens, t)
    decreases |todo|
  {
    if todo != [] {
      var t0 := todo[0];
      var rest := todo[1..];
      assert todo == [t0] + rest;
      if t0 !in e.vocabulary {
        ScatterWritesWeights(e, tokens, rest, vec);
      } else {
        var vec' := vec[e.vocabulary[t0] := Weight(e, tokens, t0)];
        forall t | t in e.vocabulary && t !in rest
          ensures vec'[e.vocabulary[t]] == Weight(e, tokens, t)
        {
          if t != t0 {
            assert e.vocabulary[t] != e.vocabulary[t0];
          }
        }
        ScatterWritesWeights(e, tokens, rest, vec');
      }
    }
  }

  /** On a well-formed model `transform` succeeds with a vector of vocabulary length
      whose column for token `t` is `count(t)/total * idf(t)` when the text has `t`
      and 0 otherwise; a text without tokens gives the zero vector. */
  lemma TransformSpec(e: Embedder, text: string)
    requires WellFormed(e)
    ensures Transform(e, text).Success?
    ensures |Transform(e, text).value| == |e.vocabulary|
    ensures forall t :: t in e.vocabulary ==>
              Transform(e, text).value[e.vocabulary[t]] == Weight(e, Tokenize(text), t)
    ensures Tokenize(text) == [] ==> Transform(e, text).value == Zeros(|e.vocabulary|)
  {
    var tokens := Tokenize(text);
    var todo := Distinct(tokens);
    var zero := Zeros(|e.vocabulary|);
    forall t | t in e.vocabulary && t !in todo
      ensures zero[e.vocabulary[t]] == Weight(e, tokens, t)
    {
      assert t !in tokens;
    }
    ScatterWritesWeights(e, tokens, todo, zero);
  }

  /** Two different elements make a set of two. */
  lemma PairCardinality<T>(x: T, y: T)
    requires x != y
    ensures |set t | t in [x, y]| == 2
  {
    assert (set t | t in [x, y]) == {x} + {y};
    assert {x} * {y} == {};
  }

  lemma SingleCardinality<T>(x: T)
    ensures |set t | t in [x]| == 1
  {
    assert (set t | t in [x]) == {x};
  }

  lemma CorpusOfOne(d: string)
    ensures CorpusTokens([d]) == Tokenize(d)
  {
    assert [d][1..] == [];
  }

  /** A text of one lower-case letter is one token. */
  lemma OneLetterTokens(x: char)
    requires 'a' <= x <= 'z'
    ensures Tokenize([x]) == [[x]]
  {
    assert Lower([x]) == [x];
    assert [x][1..] == [] && [x][..1] == [x];
    assert RunLength([x], IsWordChar) == 1;
  }

  /** Two lower-case letters separated by a space are two tokens. */
  lemma TwoLetterTokens(x: char, y: char)
    requires 'a' <= x <= 'z' && 'a' <= y <= 'z'
    ensures Tokenize([x, ' ', y]) == [[x], [y]]
  {
    var s := [x, ' ', y];
    assert Lower(s) == s;
    assert s[1..] == [' ', y] && s[..1] == [x];
    assert [' ', y][1..] == [y];
    assert RunLength(s, IsWordChar) == 1 by {
      assert RunLength([' ', y], IsWordChar) == 0;
    }
    assert Runs([y], IsWordChar) == [[y]] by {
      assert [y][1..] == [] && [y][..1] == [y];
      assert RunLength([y], IsWordChar) == 1;
    }
    assert Runs([' ', y], IsWordChar) == [[y]];
  }

  /** The number of columns is the number of distinct corpus tokens. */
  lemma ColumnCount(docs: seq<string>, ln: real -> real)
    ensures |Fit(docs, ln).vocabulary| == |set t | t in CorpusTokens(docs)|
  {
    assert Fit(docs, ln).vocabulary.Keys == set t | t in CorpusTokens(docs);
  }

  /** Fitting on a one-letter text gives one column. */
  lemma OneColumnExample(x: char, ln: real -> real)
    requires 'a' <= x <= 'z'
    ensures |Fit([[x]], ln).vocabulary| == 1
  {
    OneLetterTokens(x);
    CorpusOfOne([x]);
    ColumnCount([[x]], ln);
    SingleCardinality([x]);
  }

  /** Fitting on a text of two different one-letter words gives two columns. */
  lemma TwoColumnsExample(x: char, y: char, ln: real -> real)
    requires 'a' <= x <= 'z' && 'a' <= y <= 'z' && x != y
    ensures |Fit([[x, ' ', y]], ln).vocabulary| == 2
  {
    TwoLetterTokens(x, y);
    CorpusOfOne([x, ' ', y]);
    ColumnCount([[x, ' ', y]], ln);
    assert [x] != [y] by {
      assert [x][0] != [y][0];
    }
    PairCardinality([x], [y]);
  }

  /** `transform` applied to every text in turn; the first failure aborts. */
  function TransformAll(e: Embedder, texts: seq<string>): Result<seq<Vector>>
    decreases |texts|
  {
    if texts == [] then Success([])
    else
      var v :- Transform(e, texts[0]);
      var rest :- TransformAll(e, texts[1..]);
      Success([v] + rest)
  }

  /** `fit_transform`: the fitted model and the vectors of the fitting texts. */
  function FitTransform(docs: seq<string>, ln: real -> real): Result<(Embedder, seq<Vector>)> {
    var e := Fit(docs, ln);
    var vectors :- TransformAll(e, docs);
    Success((e, vectors))
  }

  /** A non-empty batch whose head and tail both transform yields the head's vector
      followed by the tail's. */
  lemma TransformAllCons(e: Embedder, texts: seq<string>)
    requires texts != []
    requires Transform(e, texts[0]).Success? && TransformAll(e, texts[1..]).Success?
    ensures TransformAll(e, texts) == Success([Transform(e, texts[0]).value] + TransformAll(e, texts[1..]).value)
  {
  }

  lemma {:induction false} TransformAllSpec(e: Embedder, texts: seq<string>)
    requires forall k :: 0 <= k < |texts| ==> Transform(e, texts[k]).Success?
    ensures TransformAll(e, texts).Success?
    ensures |TransformAll(e, texts).value| == |texts|
    ensures forall i :: 0 <= i < |texts| ==>
              Transform(e, texts[i]) == Success(TransformAll(e, texts).value[i])
    decreases |texts|
  {
    if texts != [] {
      assert forall k :: 0 <= k < |texts[1..]| ==> texts[1..][k] == texts[k + 1];
      TransformAllSpec(e, texts[1..]);
      TransformAllCons(e, texts);
      TransformedPointwise(e, texts, Transform(e, texts[0]).value, TransformAll(e, texts[1..]).value);
    }
  }

  /** The head's vector before the tail's vectors lines up with the whole batch. */
  lemma TransformedPointwise(e: Embedder, texts: seq<string>, v: Vector, rest: seq<Vector>)
    requires texts != [] && |rest| == |texts| - 1
    requires Transform(e, texts[0]) == Success(v)
    requires forall i :: 0 <= i < |rest| ==> Transform(e, texts[1..][i]) == Success(rest[i])
    ensures forall i :: 0 <= i < |texts| ==> Transform(e, texts[i]) == Success(([v] + rest)[i])
  {
    forall i | 0 <= i < |texts|
      ensures Transform(e, texts[i]) == Success(([v] + rest)[i])
    {
      if i > 0 {
        assert texts[i] == texts[1..][i - 1];
        assert ([v] + rest)[i] == rest[i - 1];
      }
    }
  }

  /** `fit_transform(docs)` is `fit(docs)` followed by an independent `transform` of
      each document: it never fails, and each vector has vocabulary length. */
  lemma FitTransformSpec(docs: seq<string>, ln: real -> real)
    ensures FitTransform(docs, ln).Success?
    ensures FitTransform(docs, ln).value.0 == Fit(docs, ln)
    ensures |FitTransform(docs, ln).value.1| == |docs|
    ensures forall i :: 0 <= i < |docs| ==>
              && Transform(Fit(docs, ln), docs[i]) == Success(FitTransform(docs, ln).value.1[i])
              && |FitTransform(docs, ln).value.1[i]| == |Fit(docs, ln).vocabulary|
  {
    var e := Fit(docs, ln);
    forall i | 0 <= i < |docs|
      ensures Transform(e, docs[i]).Success? && |Transform(e, docs[i]).value| == |e.vocabulary|
    {
      TransformSpec(e, docs[i]);
    }
    TransformAllSpec(e, docs);
  }
}
