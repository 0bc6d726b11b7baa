/** AIQuerySystem: building or loading the index, and answering a question for a
    role. The language model is a parameter `generate`, the logarithm and square
    root are parameters `ln` and `sqrt`, and the file system is represented by the
    store file and the loaded documents handed in. */
module QuerySystem {
  import opened Outcomes
  import opened Seqs
  import opened Tfidf
  import opened Chunker
  import opened VectorStore
  import opened RoleFilter

  /** The state of an AIQuerySystem: whether `initialize` has succeeded, the
      in-memory store, and what is on disk at the store path. */
  datatype System = System(initialized: bool, store: Store, storeFile: StoreFile)

  /** A system as constructed, before `initialize`. */
  function Fresh(storeFile: StoreFile): System {
    System(false, EmptyStore, storeFile)
  }

  /** The dictionary the language model returns. */
  datatype Reply = Reply(response: string, sources: seq<string>, model: string, contextUsed: int)

  type Generator = (string, seq<Hit>) -> Reply

  /** The two shapes of the dictionary `query` returns; the timestamp is left out. */
  datatype Answer =
    | NoAccessibleInfo(query: string, response: string, sources: seq<string>, contextChunks: int, userRole: string)
    | Answered(query: string, response: string, sources: seq<string>, modelUsed: string, contextChunks: int,
               similarityScores: seq<real>, userRole: string, filtered: bool)

  const NoInfoResponse: string :=
    "I couldn't find any relevant information in the documents accessible to your role."

  /** The role may see the chunk of every hit. */
  ghost predicate Permitted(hits: seq<Hit>, userRole: string) {
    forall i :: 0 <= i < |hits| ==> ParseRole(userRole) in AllowedRoles(hits[i].chunk.source)
  }

  function Source(h: Hit): string {
    h.chunk.source
  }

  /** Search, then role filtering: the context the language model may be shown.
      It holds at most `topK` hits, in search order, and every copy of each hit the
      role may see and nothing else; the search's failure is its failure. */
  function Retrieve(s: Store, question: string, topK: nat, userRole: string, sqrt: real -> real)
    : (r: Result<seq<Hit>>)
    ensures r.Failure? <==> SimilaritySearch(s, question, topK, sqrt).Failure?
    ensures r.Success? ==>
              var hits := SimilaritySearch(s, question, topK, sqrt).value;
              && Permitted(r.value, userRole)
              && IsSubsequence(r.value, hits)
              && |r.value| <= topK
              && (forall i :: 0 <= i < |hits| && ParseRole(userRole) in AllowedRoles(hits[i].chunk.source)
                    ==> hits[i] in r.value)
              && (forall h :: multiset(r.value)[h] ==
                    if ParseRole(userRole) in AllowedRoles(h.chunk.source) then multiset(hits)[h] else 0)
  {
    var hits :- SimilaritySearch(s, question, topK, sqrt);
    var visible := FilterDocuments(hits, Source, userRole);
    SubsequenceLength(visible, hits);
    Success(visible)
  }

  function Similarities(hits: seq<Hit>): (r: seq<real>)
    ensures |r| == |hits| && forall i :: 0 <= i < |hits| ==> r[i] == hits[i].similarity
  {
    seq(|hits|, i requires 0 <= i < |hits| => hits[i].similarity)
  }

  /** The answer built from the language model's reply: the reply redacted for the
      role, its sources and context count, the similarity of each chunk the model
      was shown, and whether the redaction changed anything, which for roles other
      than admin is exactly when the reply mentions a keyword as written. */
  function Respond(question: string, context: seq<Hit>, userRole: string, reply: Reply): (a: Answer)
    ensures a.Answered?
    ensures a.query == question && a.userRole == userRole
    ensures a.similarityScores == Similarities(context)
    ensures a.sources == reply.sources && a.modelUsed == reply.model && a.contextChunks == reply.contextUsed
    ensures a.filtered <==> !SeesSensitiveInfo(ParseRole(userRole)) && Mentions(reply.response, SensitiveKeywords)
    ensures a.filtered ==> a.response == Redact(reply.response, SensitiveKeywords) + Disclaimer
    ensures !a.filtered ==> a.response == reply.response
  {
    var response := FilterResponse(reply.response, userRole);
    FilterResponseChanges(reply.response, userRole);
    Answered(question, response, reply.sources, reply.model, reply.contextUsed,
             Similarities(context), userRole, response != reply.response)
  }

  /** `query`. An uninitialised system refuses. Otherwise, when the role may see
      none of the retrieved chunks, the fixed reply comes back without consulting
      the language model; else the language model is shown exactly the permitted
      chunks and its answer goes through `Respond`. */
  function Query(sys: System, question: string, topK: nat, userRole: string,
                 generate: Generator, sqrt: real -> real): (r: Result<Answer>)
    ensures !sys.initialized ==> r == Failure(NotInitialized)
    ensures sys.initialized ==> (r.Failure? <==> Retrieve(sys.store, question, topK, userRole, sqrt).Failure?)
    ensures r.Success? ==> Retrieve(sys.store, question, topK, userRole, sqrt).Success?
    ensures r.Success? && Retrieve(sys.store, question, topK, userRole, sqrt).value == [] ==>
              r.value == NoAccessibleInfo(question, NoInfoResponse, [], 0, userRole)
    ensures r.Success? && Retrieve(sys.store, question, topK, userRole, sqrt).value != [] ==>
              var context := Retrieve(sys.store, question, topK, userRole, sqrt).value;
              r.value == Respond(question, context, userRole, generate(question, context))
  {
    if !sys.initialized then Failure(NotInitialized)
    else
      var context :- Retrieve(sys.store, question, topK, userRole, sqrt);
      if context == [] then Success(NoAccessibleInfo(question, NoInfoResponse, [], 0, userRole))
      else Success(Respond(question, context, userRole, generate(question, context)))
  }

  /** The language model never sees a chunk the role may not see: two models that
      answer alike on every permitted context give the same result. */
  lemma QueryShowsOnlyPermittedChunks(sys: System, question: string, topK: nat, userRole: string,
                                      g1: Generator, g2: Generator, sqrt: real -> real)
    requires forall hits :: Permitted(hits, userRole) ==> g1(question, hits) == g2(question, hits)
    ensures Query(sys, question, topK, userRole, g1, sqrt) == Query(sys, question, topK, userRole, g2, sqrt)
  {
  }

  /** When the role may see nothing that was retrieved, the answer does not depend
      on the language model at all. */
  lemma NoContextIgnoresModel(sys: System, question: string, topK: nat, userRole: string,
                              g1: Generator, g2: Generator, sqrt: real -> real)
    ensures sys.initialized && Retrieve(sys.store, question, topK, userRole, sqrt) == Success([]) ==>
              && Query(sys, question, topK, userRole, g1, sqrt) == Query(sys, question, topK, userRole, g2, sqrt)
              && Query(sys, question, topK, userRole, g1, sqrt)
                 == Success(NoAccessibleInfo(question, NoInfoResponse, [], 0, userRole))
  {
  }

  // ---------------------------------------------------------------------------
  // initialize

  /** The rebuild branch: chunk every document, add the chunks to the store held
      in memory, and write the store to disk. A missing documents directory is an
      error. */
  function Rebuild(sys: System, corpus: Option<seq<Document>>, ln: real -> real): Result<System> {
    match corpus
    case None => Failure(CorpusNotFound)
    case Some(docs) =>
      var store := AddDocuments(sys.store, ProcessDocuments(docs), ln);
      Success(System(true, store, Pickled(Save(store))))
  }

  /** `initialize`: an existing store file is loaded unless a rebuild is forced;
      a file that exists but does not load falls through to the rebuild. */
  function Initialize(sys: System, forceRebuild: bool, corpus: Option<seq<Document>>, ln: real -> real)
    : (r: Result<System>)
    ensures r.Success? ==> r.value.initialized
    ensures !forceRebuild && sys.storeFile.Pickled? ==>
              r == Success(System(true, Load(sys.storeFile).value, sys.storeFile))
    ensures (forceRebuild || !sys.storeFile.Pickled?) ==> (r.Failure? <==> corpus.None?)
    ensures r.Failure? ==> r == Failure(CorpusNotFound)
    ensures r.Success? ==> Load(r.value.storeFile) == Success(r.value.store)
  {
    if sys.storeFile != Missing && !forceRebuild && Load(sys.storeFile).Success? then
      Success(System(true, Load(sys.storeFile).value, sys.storeFile))
    else
      Rebuild(sys, corpus, ln)
  }

  /** A rebuild appends the chunks of the documents to the records already held
      by `add_documents` and saves the result; starting from an empty store, the
      index it leaves is consistent. */
  lemma RebuildAppendsChunks(sys: System, forceRebuild: bool, docs: seq<Document>, ln: real -> real)
    requires forceRebuild || !sys.storeFile.Pickled?
    ensures var r := Initialize(sys, forceRebuild, Some(docs), ln);
            && r.Success?
            && r.value.store == AddDocuments(sys.store, ProcessDocuments(docs), ln)
            && r.value.store.metadata == sys.store.metadata + ProcessDocuments(docs)
            && (sys.store.vectors == [] && sys.store.metadata == [] ==> Consistent(r.value.store))
            && r.value.storeFile == Pickled(Save(r.value.store))
  {
    if sys.store.vectors == [] && sys.store.metadata == [] {
      AddToEmptyIsConsistent(sys.store, ProcessDocuments(docs), ln);
    }
  }

  /** A forced rebuild of a system that already holds a consistent index appends
      to it; when the new chunks give a vocabulary of another size, the vectors
      held before keep the old width and the index is no longer consistent. */
  lemma ForcedRebuildLosesConsistency(sys: System, docs: seq<Document>, ln: real -> real)
    ensures Consistent(sys.store) && sys.store.vectors != []
            && |Fit(Texts(ProcessDocuments(docs)), ln).vocabulary| != |sys.store.model.vocabulary|
            ==> && Initialize(sys, true, Some(docs), ln).Success?
                && !Consistent(Initialize(sys, true, Some(docs), ln).value.store)
  {
    if Consistent(sys.store) && sys.store.vectors != []
       && |Fit(Texts(ProcessDocuments(docs)), ln).vocabulary| != |sys.store.model.vocabulary|
    {
      AddDocumentsLosesConsistency(sys.store, ProcessDocuments(docs), ln);
    }
  }

  /** Building a fresh system from documents gives a consistent index of exactly
      their chunks; a second `initialize` without forcing a rebuild loads that
      index back unchanged. */
  lemma InitializeFresh(storeFile: StoreFile, forceRebuild: bool, docs: seq<Document>, ln: real -> real,
                        later: Option<seq<Document>>)
    requires forceRebuild || !storeFile.Pickled?
    ensures var r := Initialize(Fresh(storeFile), forceRebuild, Some(docs), ln);
            && r.Success?
            && r.value.store == AddDocuments(EmptyStore, ProcessDocuments(docs), ln)
            && r.value.store.metadata == ProcessDocuments(docs)
            && Consistent(r.value.store)
            && Initialize(r.value, false, later, ln) == r
  {
    AddToEmptyIsConsistent(EmptyStore, ProcessDocuments(docs), ln);
  }
}
