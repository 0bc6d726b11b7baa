/** VectorStore: chunk vectors kept in lockstep with their chunk records, searched
    by cosine similarity, and saved to / loaded from a snapshot. The square root is a
    parameter `sqrt`; only the two facts the zero rule needs are assumed of it. */
module VectorStore {
  import opened Outcomes
  import opened Seqs
  import opened Sorting
  import opened Tfidf
  import opened Chunker

  /** A search result: a copy of the chunk record plus its `similarity`. */
  datatype Hit = Hit(chunk: Chunk, similarity: real)

  /** `vectors[i]` is the vector of `metadata[i]`. */
  datatype Store = Store(vectors: seq<Vector>, metadata: seq<Chunk>, model: Embedder)

  const EmptyStore: Store := Store([], [], Unfitted)

  /** The store a search can rely on: one vector per record, every vector laid out
      in the columns of the current vocabulary. */
  ghost predicate Consistent(s: Store) {
    && |s.vectors| == |s.metadata|
    && WellFormed(s.model)
    && forall i :: 0 <= i < |s.vectors| ==> |s.vectors[i]| == |s.model.vocabulary|
  }

  function Texts(chunks: seq<Chunk>): (r: seq<string>)
    ensures |r| == |chunks|
    ensures forall i :: 0 <= i < |chunks| ==> r[i] == chunks[i].text
  {
    seq(|chunks|, i requires 0 <= i < |chunks| => chunks[i].text)
  }

  /** `add_documents`: re-fits the model on the texts of this batch alone, then
      appends the batch's vectors and records. Earlier vectors are kept as they
      are. */
  function AddDocuments(s: Store, chunks: seq<Chunk>, ln: real -> real): (r: Store)
    ensures r.model == Fit(Texts(chunks), ln)
    ensures r.metadata == s.metadata + chunks
    ensures |r.vectors| == |s.vectors| + |chunks|
    ensures r.vectors[..|s.vectors|] == s.vectors
    ensures forall i :: 0 <= i < |chunks| ==>
              && Transform(r.model, chunks[i].text) == Success(r.vectors[|s.vectors| + i])
              && |r.vectors[|s.vectors| + i]| == |r.model.vocabulary|
  {
    var texts := Texts(chunks);
    FitTransformSpec(texts, ln);
    var fitted := FitTransform(texts, ln).value;
    AppendBatch(fitted.0, s.vectors, chunks, fitted.1, |fitted.0.vocabulary|);
    Store(s.vectors + fitted.1, s.metadata + chunks, fitted.0)
  }

  /** Vectors of a batch appended after earlier ones sit at the batch's offset. */
  lemma AppendBatch(e: Embedder, earlier: seq<Vector>, chunks: seq<Chunk>, batch: seq<Vector>, width: nat)
    requires |batch| == |chunks|
    requires forall i :: 0 <= i < |chunks| ==>
               Transform(e, Texts(chunks)[i]) == Success(batch[i]) && |batch[i]| == width
    ensures (earlier + batch)[..|earlier|] == earlier
    ensures forall i :: 0 <= i < |chunks| ==>
              && Transform(e, chunks[i].text) == Success((earlier + batch)[|earlier| + i])
              && |(earlier + batch)[|earlier| + i]| == width
  {
    var vectors := earlier + batch;
    forall i | 0 <= i < |chunks|
      ensures Transform(e, chunks[i].text) == Success(vectors[|earlier| + i])
      ensures |vectors[|earlier| + i]| == width
    {
      assert vectors[|earlier| + i] == batch[i];
      assert Texts(chunks)[i] == chunks[i].text;
    }
    assert vectors[..|earlier|] == earlier;
  }

  /** Adding a batch to a store without records, which is how the system builds
      its index, yields a consistent store. */
  lemma AddToEmptyIsConsistent(s: Store, chunks: seq<Chunk>, ln: real -> real)
    requires s.vectors == [] && s.metadata == []
    ensures Consistent(AddDocuments(s, chunks, ln))
  {
    var r := AddDocuments(s, chunks, ln);
    forall i | 0 <= i < |r.vectors|
      ensures |r.vectors[i]| == |r.model.vocabulary|
    {
      assert Transform(r.model, chunks[i].text) == Success(r.vectors[|s.vectors| + i]);
      assert r.vectors[i] == r.vectors[|s.vectors| + i];
    }
  }

    /** Whatever the store held before, `add_documents` leaves a well-formed model
      and one vector per record, so the search of `SimilaritySearchSpec` applies. */
  lemma AddDocumentsSearchable(s: Store, chunks: seq<Chunk>, ln: real -> real)
    requires |s.vectors| == |s.metadata|
    ensures var r := AddDocuments(s, chunks, ln);
            && WellFormed(r.model)
            && |r.vectors| == |r.metadata|
            && (s.vectors != [] || chunks != [] ==> r.vectors != [])
  {
  }

/** Adding a batch whose vocabulary differs in size from the stored one leaves
      the earlier vectors in the columns of a vocabulary the model no longer has:
      the store is no longer consistent. */
  lemma AddDocumentsLosesConsistency(s: Store, chunks: seq<Chunk>, ln: real -> real)
    requires Consistent(s) && s.vectors != []
    requires |Fit(Texts(chunks), ln).vocabulary| != |s.model.vocabulary|
    ensures !Consistent(AddDocuments(s, chunks, ln))
  {
    var r := AddDocuments(s, chunks, ln);
    assert r.vectors[0] == s.vectors[0];
  }

  /** A concrete case: a store built from a chunk reading "a" has one column; adding
      a chunk reading "b c" re-fits on two tokens, and the first vector keeps its
      single column. */
  lemma StaleVectorsExample(ln: real -> real)
    ensures var c1 := Chunk("a", "one.txt", 0, "documents/one.txt");
            var c2 := Chunk("b c", "two.txt", 0, "documents/two.txt");
            var s := AddDocuments(EmptyStore, [c1], ln);
            Consistent(s) && !Consistent(AddDocuments(s, [c2], ln))
  {
    var c1 := Chunk("a", "one.txt", 0, "documents/one.txt");
    var c2 := Chunk("b c", "two.txt", 0, "documents/two.txt");
    AddToEmptyIsConsistent(EmptyStore, [c1], ln);
    var s := AddDocuments(EmptyStore, [c1], ln);
    assert Texts([c1]) == ["a"];
    assert Texts([c2]) == ["b c"];
    OneColumnExample('a', ln);
    TwoColumnsExample('b', 'c', ln);
    AddDocumentsLosesConsistency(s, [c2], ln);
  }

  /** `add_documents` as evidently intended: re-fit the model on every stored
      record plus the batch and recompute every vector, so the whole store stays in
      the columns of one vocabulary. */
  function AddDocumentsRefit(s: Store, chunks: seq<Chunk>, ln: real -> real): (r: Store)
    ensures r.metadata == s.metadata + chunks
    ensures r.model == Fit(Texts(s.metadata + chunks), ln)
    ensures Consistent(r)
    ensures forall i :: 0 <= i < |r.metadata| ==> Transform(r.model, r.metadata[i].text) == Success(r.vectors[i])
  {
    var records := s.metadata + chunks;
    var texts := Texts(records);
    FitTransformSpec(texts, ln);
    var fitted := FitTransform(texts, ln).value;
    Store(fitted.1, records, fitted.0)
  }

  /** On the empty store of a system built for the first time, the corrected
      operation and the code's agree. */
  lemma RefitAgreesOnEmpty(chunks: seq<Chunk>, ln: real -> real)
    ensures AddDocumentsRefit(EmptyStore, chunks, ln) == AddDocuments(EmptyStore, chunks, ln)
  {
    var a := AddDocumentsRefit(EmptyStore, chunks, ln);
    var b := AddDocuments(EmptyStore, chunks, ln);
    assert EmptyStore.metadata + chunks == chunks;
    assert a.metadata == b.metadata;
    assert a.model == b.model;
    assert |a.vectors| == |b.vectors|;
    forall i | 0 <= i < |chunks|
      ensures a.vectors[i] == b.vectors[i]
    {
      assert Success(a.vectors[i]) == Transform(a.model, chunks[i].text);
      assert Success(b.vectors[|EmptyStore.vectors| + i]) == Transform(b.model, chunks[i].text);
    }
    assert a.vectors == b.vectors;
  }

  // ---------------------------------------------------------------------------
  // cosine similarity

  /** `sum(a * b for a, b in zip(u, v))`: the zip stops at the shorter vector. */
  function Dot(u: Vector, v: Vector): real
    decreases |u|
  {
    if u == [] || v == [] then 0.0 else Product(u[0], v[0]) + Dot(u[1..], v[1..])
  }

  function Product(a: real, b: real): real {
    a * b
  }

  ghost predicate IsZero(u: Vector) {
    forall i :: 0 <= i < |u| ==> u[i] == 0.0
  }

  lemma {:induction false} DotSymmetric(u: Vector, v: Vector)
    ensures Dot(u, v) == Dot(v, u)
    decreases |u|
  {
    if u != [] && v != [] {
      DotSymmetric(u[1..], v[1..]);
    }
  }

  /** The sum of squares is never negative, and is zero exactly for the zero
      vector. */
  lemma {:induction false} SumOfSquares(u: Vector)
    ensures Dot(u, u) >= 0.0
    ensures IsZero(u) ==> Dot(u, u) == 0.0
    ensures !IsZero(u) ==> Dot(u, u) > 0.0
    decreases |u|
  {
    if u != [] {
      SumOfSquares(u[1..]);
      assert IsZero(u) <==> u[0] == 0.0 && IsZero(u[1..]) by {
        assert forall i :: 1 <= i < |u| ==> u[i] == u[1..][i - 1];
      }
      Square(u[0]);
    }
  }

  /** A square is zero for 0 and positive otherwise. */
  lemma Square(x: real)
    ensures x == 0.0 ==> Product(x, x) == 0.0
    ensures x != 0.0 ==> Product(x, x) > 0.0
  {
    if x > 0.0 {
      PositiveProduct(x, x);
    } else if x < 0.0 {
      PositiveProduct(-x, -x);
      assert Product(-x, -x) == Product(x, x);
    }
  }

  lemma PositiveProduct(a: real, b: real)
    requires a > 0.0 && b > 0.0
    ensures Product(a, b) > 0.0
  {
  }

  /** What the engine needs of `math.sqrt`: the root of 0 is 0 and the root of a
      positive number is positive. */
  ghost predicate SqrtLaws(sqrt: real -> real) {
    sqrt(0.0) == 0.0 && forall x: real :: x > 0.0 ==> sqrt(x) > 0.0
  }

  /** `_cosine_similarity`, including its rule that a zero magnitude gives 0. */
  function Cosine(u: Vector, v: Vector, sqrt: real -> real): real {
    var m1 := sqrt(Dot(u, u));
    var m2 := sqrt(Dot(v, v));
    if m1 == 0.0 || m2 == 0.0 then 0.0
    else
      NonZeroProduct(m1, m2);
      Quotient(Dot(u, v), Product(m1, m2))
  }

  function Quotient(a: real, b: real): real
    requires b != 0.0
  {
    a / b
  }

  lemma NonZeroProduct(a: real, b: real)
    requires a != 0.0 && b != 0.0
    ensures Product(a, b) != 0.0
  {
  }

  /** The zero rule: a zero vector on either side gives similarity 0; two non-zero
      vectors have positive magnitudes and get `dot / (|u| |v|)`. */
  lemma CosineZeroRule(u: Vector, v: Vector, sqrt: real -> real)
    requires SqrtLaws(sqrt)
    ensures IsZero(u) || IsZero(v) ==> Cosine(u, v, sqrt) == 0.0
    ensures !IsZero(u) && !IsZero(v) ==>
              && sqrt(Dot(u, u)) > 0.0 && sqrt(Dot(v, v)) > 0.0
              && Cosine(u, v, sqrt) == Quotient(Dot(u, v), Product(sqrt(Dot(u, u)), sqrt(Dot(v, v))))
  {
    SumOfSquares(u);
    SumOfSquares(v);
    var m1 := sqrt(Dot(u, u));
    var m2 := sqrt(Dot(v, v));
    if IsZero(u) {
      assert m1 == 0.0;
    } else if IsZero(v) {
      assert m2 == 0.0;
    } else {
      assert m1 > 0.0 && m2 > 0.0;
      assert !(m1 == 0.0 || m2 == 0.0);
    }
  }

  lemma CosineSymmetric(u: Vector, v: Vector, sqrt: real -> real)
    ensures Cosine(u, v, sqrt) == Cosine(v, u, sqrt)
  {
    DotSymmetric(u, v);
    var m1 := sqrt(Dot(u, u));
    var m2 := sqrt(Dot(v, v));
    assert m1 * m2 == m2 * m1;
  }

  // ---------------------------------------------------------------------------
  // similarity_search

  /** The `(similarity, idx)` pair of one stored vector. */
  datatype Scored = Scored(similarity: real, index: nat)

  /** The order of `sort(reverse=True)` on `(similarity, idx)` tuples: higher
      similarity first, and among equal similarities the higher index first. */
  predicate RanksAbove(a: Scored, b: Scored) {
    a.similarity > b.similarity || (a.similarity == b.similarity && a.index >= b.index)
  }

  lemma RanksAboveIsTotalPreorder()
    ensures TotalPreorder(RanksAbove)
  {
  }

  /** The pair of every stored vector, in storage order. */
  function Scores(q: Vector, vectors: seq<Vector>, sqrt: real -> real): (r: seq<Scored>)
    ensures |r| == |vectors|
    ensures forall i :: 0 <= i < |vectors| ==> r[i] == Scored(Cosine(q, vectors[i], sqrt), i)
    ensures NoDuplicates(r)
  {
    seq(|vectors|, i requires 0 <= i < |vectors| => Scored(Cosine(q, vectors[i], sqrt), i))
  }

  /** The sorted list of pairs: every stored vector exactly once, by descending
      similarity, equal similarities by descending index. */
  function Rank(q: Vector, vectors: seq<Vector>, sqrt: real -> real): (r: seq<Scored>)
    ensures multiset(r) == multiset(Scores(q, vectors, sqrt))
    ensures |r| == |vectors|
    ensures SortedBy(r, RanksAbove)
    ensures forall i :: 0 <= i < |r| ==>
              r[i].index < |vectors| && r[i].similarity == Cosine(q, vectors[r[i].index], sqrt)
    ensures forall i, j :: 0 <= i < j < |r| ==>
              r[i].similarity > r[j].similarity
              || (r[i].similarity == r[j].similarity && r[i].index > r[j].index)
  {
    var sc := Scores(q, vectors, sqrt);
    RanksAboveIsTotalPreorder();
    var r := InsertionSort(sc, RanksAbove);
    RankedEntries(sc, r);
    StrictTies(sc, r);
    r
  }

  /** Every entry of a permutation of the pairs is the pair of its own index. */
  lemma RankedEntries(sc: seq<Scored>, r: seq<Scored>)
    requires forall i :: 0 <= i < |sc| ==> sc[i].index == i
    requires multiset(r) == multiset(sc)
    ensures forall i :: 0 <= i < |r| ==> r[i].index < |sc| && r[i] == sc[r[i].index]
  {
    forall i | 0 <= i < |r|
      ensures r[i].index < |sc| && r[i] == sc[r[i].index]
    {
      assert r[i] in multiset(sc);
      var j :| 0 <= j < |sc| && sc[j] == r[i];
    }
  }

  /** In a sorted permutation of the pairs, equal similarities come by strictly
      descending index: no two entries share an index. */
  lemma StrictTies(sc: seq<Scored>, r: seq<Scored>)
    requires forall i :: 0 <= i < |r| ==> r[i].index < |sc| && r[i] == sc[r[i].index]
    requires NoDuplicates(r) && SortedBy(r, RanksAbove)
    ensures forall i, j :: 0 <= i < j < |r| ==>
              r[i].similarity > r[j].similarity
              || (r[i].similarity == r[j].similarity && r[i].index > r[j].index)
  {
    forall i, j | 0 <= i < j < |r|
      ensures r[i].similarity > r[j].similarity
              || (r[i].similarity == r[j].similarity && r[i].index > r[j].index)
    {
      assert RanksAbove(r[i], r[j]);
      assert r[i] != r[j];
    }
  }

  /** A vector left out of the first `c` ranks ranks below each of them: taking a
      prefix of the ranking selects the best `c` vectors. */
  lemma RankSelectsTop(q: Vector, vectors: seq<Vector>, sqrt: real -> real, c: nat, m: nat)
    requires c <= |vectors| && m < |vectors|
    requires forall i :: 0 <= i < c ==> Rank(q, vectors, sqrt)[i].index != m
    ensures forall i :: 0 <= i < c ==>
              RanksAbove(Rank(q, vectors, sqrt)[i], Scored(Cosine(q, vectors[m], sqrt), m))
  {
    var r := Rank(q, vectors, sqrt);
    var sc := Scores(q, vectors, sqrt);
    assert sc[m] in multiset(r);
    var p :| 0 <= p < |r| && r[p] == sc[m];
    assert p >= c;
  }

  /** The chunk records of the given pairs, each with its similarity. An index past
      the records is an IndexError. */
  function Hits(top: seq<Scored>, metadata: seq<Chunk>): (r: Result<seq<Hit>>)
    ensures r.Success? <==> forall i :: 0 <= i < |top| ==> top[i].index < |metadata|
    ensures r.Success? ==>
              && |r.value| == |top|
              && forall i :: 0 <= i < |top| ==>
                   r.value[i] == Hit(metadata[top[i].index], top[i].similarity)
    decreases |top|
  {
    if top == [] then Success([])
    else if top[0].index >= |metadata| then Failure(IndexOutOfRange)
    else
      var rest :- Hits(top[1..], metadata);
      assert forall i :: 1 <= i < |top| ==> top[i] == top[1..][i - 1];
      Success([Hit(metadata[top[0].index], top[0].similarity)] + rest)
  }

  /** `similarity_search(query, k)`: nothing from an empty store; otherwise the
      query is transformed (which fails on an unfitted model) and the records of the
      `k` best-ranked vectors are returned, best first. */
  function SimilaritySearch(s: Store, query: string, k: nat, sqrt: real -> real): (r: Result<seq<Hit>>)
    ensures s.vectors == [] ==> r == Success([])
    ensures s.vectors != [] && !s.model.fitted ==> r == Failure(NotFitted)
    ensures r.Success? ==> |r.value| <= k && |r.value| <= |s.vectors|
    ensures r.Success? ==>
              forall i, j :: 0 <= i < j < |r.value| ==> r.value[i].similarity >= r.value[j].similarity
  {
    if s.vectors == [] then Success([])
    else
      var q :- Transform(s.model, query);
      var ranked := Rank(q, s.vectors, sqrt);
      Hits(ranked[..Min(k, |ranked|)], s.metadata)
  }

  /** On a store with a well-formed model and one vector per record, the search
      succeeds with `min(k, n)` hits: hit `i` is the record of the `i`-th ranked
      vector together with its cosine similarity to the query's vector. Stored
      vectors of a stale width, as `AddDocuments` can leave them, are allowed. */
  lemma SimilaritySearchSpec(s: Store, query: string, k: nat, sqrt: real -> real)
    requires WellFormed(s.model) && |s.vectors| == |s.metadata| && s.vectors != []
    ensures Transform(s.model, query).Success?
    ensures var q := Transform(s.model, query).value;
            var ranked := Rank(q, s.vectors, sqrt);
            var r := SimilaritySearch(s, query, k, sqrt);
            && r.Success?
            && |r.value| == Min(k, |s.vectors|)
            && forall i :: 0 <= i < |r.value| ==>
                 && r.value[i].chunk == s.metadata[ranked[i].index]
                 && r.value[i].similarity == Cosine(q, s.vectors[ranked[i].index], sqrt)
  {
    TransformSpec(s.model, query);
  }

  // ---------------------------------------------------------------------------
  // save / load

  /** The dictionary `save` pickles. */
  datatype Snapshot = Snapshot(
    vectors: seq<Vector>, metadata: seq<Chunk>,
    vocabulary: map<string, nat>, idfScores: map<string, real>, fitted: bool)

  /** What `load` can find at the store path. */
  datatype StoreFile = Missing | Unreadable | Pickled(data: Snapshot)

  function Save(s: Store): Snapshot {
    Snapshot(s.vectors, s.metadata, s.model.vocabulary, s.model.idfScores, s.model.fitted)
  }

  /** `load`: restores every field from a snapshot; a missing or unreadable file is
      an error. */
  function Load(f: StoreFile): (r: Result<Store>)
    ensures r.Success? <==> f.Pickled?
    ensures r.Failure? ==> r.error == PersistenceError
  {
    match f
    case Pickled(d) => Success(Store(d.vectors, d.metadata, Embedder(d.vocabulary, d.idfScores, d.fitted)))
    case _ => Failure(PersistenceError)
  }

  /** Loading what was saved restores the store, so every search answers as before. */
  lemma SaveLoadRoundTrip(s: Store, query: string, k: nat, sqrt: real -> real)
    ensures Load(Pickled(Save(s))) == Success(s)
    ensures SimilaritySearch(Load(Pickled(Save(s))).value, query, k, sqrt)
            == SimilaritySearch(s, query, k, sqrt)
  {
  }
}
