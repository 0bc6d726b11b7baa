# Retrieval engine of AIQuerySystem, in Dafny

This project models the retrieval engine of AIQuerySystem, a question-answering
system over a small corpus of text documents. The engine has these parts:

- **Chunker**: `DocumentProcessor.chunk_text` and `process_documents`. They cut
  each document into overlapping windows of at most 500 characters. A window
  snaps back to its last `.`, `?` or `!`, and whitespace-only windows are dropped.
- **TF-IDF vectorizer**: `SimpleEmbeddings`. It tokenizes and builds a vocabulary
  that numbers the distinct corpus tokens 0 .. n-1. It computes `ln(N / d(t))`
  IDF scores and maps a text to a vector with one column per vocabulary token.
- **Vector store**: `VectorStore`. It covers `add_documents`, cosine similarity
  with its zero-magnitude rule, and `similarity_search`. The search sorts
  `(similarity, index)` pairs in reverse, so equal similarities go to the higher
  index. It also covers `save`/`load` as a snapshot record.
- **Role filter**: `RoleFilter.filter_documents`, `RoleFilter.filter_response` and
  `FeedbackAnalyzer._extract_common_words`.
- **Query system**: `AIQuerySystem.query` and the load-or-rebuild logic of
  `AIQuerySystem.initialize`.

Everything is modelled as pure functions over immutable datatypes. Exceptions
become `Result` values (`outcomes.dfy`). Some inputs are parameters, because the
code cannot see them:

- `ln` and `sqrt` are parameters of type `real -> real`. The search lemmas
  assume only `sqrt(0) = 0` and `sqrt(x) > 0` for `x > 0` (`SqrtLaws`).
- The language model is a parameter `generate` of `query`.
- The documents directory is an `Option<seq<Document>>`.
- The store file is a `StoreFile` value: missing, unreadable, or a pickled snapshot.

Files, leaf first:

- `outcomes.dfy`: the error kinds, `Option` and `Result`.
- `seqs.dfy`: counting, first-seen de-duplication, filtering, flattening and
  subsequences.
- `strings.dfy`: `strip`, `lower`/`upper`, `in`, `replace`, `split` and the
  maximal runs of word characters.
- `sorting.dfy`: insertion sort under a total preorder.
- `chunker.dfy`, `tfidf.dfy`, `vector_store.dfy`, `role_filter.dfy`, `feedback.dfy`,
  `query_system.dfy`: one module per part of the engine.

Behaviour of the code worth noting:

- A text that fits in one chunk comes back whole and untrimmed; an empty text
  gives `[""]`.
- Ties in the search ranking go to the higher index.
- Redaction replaces only occurrences with the keyword's own case. So
  "Passwords must be encrypted." reaches a public user unchanged and without the
  disclaimer.
- `add_documents` re-fits the vectorizer on each new batch alone (see Findings).
  A forced `initialize` on a system that already holds an index appends to it
  this way.

## Model

| member | source | states |
|---|---|---|
| Chunker.RFind | src/document_processor.py:57-59 | `rfind(c, lo, hi)`: -1 when `c` is not in `[lo, hi)`; otherwise a position of `c` in the window with no `c` after it |
| Chunker.BestBreak | src/document_processor.py:57-61 | the largest of the three `rfind`s is the last sentence end (`.`, `?`, `!`) in the window, or -1 when the window has none |
| Chunker.WindowEnd | src/document_processor.py:52-63 | the window always ends strictly after `start` and at most `chunk_size` later; a window reaching the end of the text is not snapped; otherwise it ends just after the last sentence end strictly after `start`, searching the whole window, or at the full width when there is none |
| Chunker.NextStart | src/document_processor.py:70-73 | the next start is strictly greater than the current one: `end - overlap` when that moves forward, else `end` |
| Chunker.FindWindowEnd | src/document_processor.py:52-63 | the statements of the loop body (three `rfind`s, `max`, the `> start` guard) compute `WindowEnd` |
| Chunker.LoopStep | src/document_processor.py:52-73 | one loop iteration strictly increases `start` and keeps "chunks so far + chunks still to come" invariant |
| Chunker.ChunkTextLoop | src/document_processor.py:43-75 | the `while` loop terminates for every `chunk_size > 0` and any overlap, and returns exactly `ChunkText` |
| Chunker.ChunkFrom | src/document_processor.py:51-73 | every chunk the loop emits is a non-empty slice of the text no longer than `chunk_size`, stripped of whitespace at both ends |
| Chunker.ChunkText | src/document_processor.py:43-75 | a text of at most `chunk_size` characters gives exactly `[text]`, untrimmed; every chunk is a slice of the text of at most `chunk_size` characters; on the long path every chunk is non-empty and stripped, with no whitespace at either end |
| Chunker.ProcessDocumentsLayout | src/document_processor.py:77-93 | each document's chunk records appear in document order, numbered 0, 1, 2, ... and labelled with the document's filename and path; the total is the sum of the per-document chunk counts |
| Chunker.ProcessDocuments | src/document_processor.py:77-93 | the records of every document's chunks, document after document; its contract is stated by `Chunker.ProcessDocumentsLayout` |
| Strings.Strip | src/document_processor.py:65 | `strip()` is the slice between the first and last non-whitespace characters, empty exactly for an all-whitespace text |
| Strings.Runs | src/embeddings.py:23 | the runs are non-empty, made of word characters only, and concatenated they are exactly the word characters of the text, in order |
| Strings.RunsOfWord | src/embeddings.py:23 | a non-empty stretch of word characters is a single token |
| Strings.RunsSplit | src/embeddings.py:23 | a non-word character separates tokens: the tokens of `a + c + b` are those of `a` then those of `b`, so tokens are maximal runs |
| Strings.LowerKeepsContains | src/role_filter.py:55 | whenever a keyword occurs with its case as written, the lower-cased gate of the redaction loop opens |
| Strings.Replace | src/role_filter.py:56-59 | `replace` leaves a text without the pattern unchanged; a longer replacement makes a text containing the pattern strictly longer and containing the replacement |
| Seqs.Distinct | src/role_filter.py:127-133 | the keys of a dict filled from a sequence: no repeats, exactly the elements of the sequence |
| Seqs.DistinctFirstSeenOrder | src/role_filter.py:127-133 | dict insertion order is first-seen order: a key listed earlier first occurred earlier |
| Sorting.InsertionSort | src/role_filter.py:136 | the sort returns a permutation of its input ordered by the key, and distinct inputs stay distinct |
| Tfidf.TokenizeSpec | src/embeddings.py:19-24 | tokens are non-empty runs of word characters of the lower-cased text and together hold all its word characters, in order |
| Tfidf.Tokenize | src/embeddings.py:19-24 | `_tokenize` as the maximal runs of word characters of the lower-cased text; its contract is stated by `Tfidf.TokenizeSpec`, with maximality by `Strings.RunsOfWord` and `Strings.RunsSplit` |
| Tfidf.OneLetterTokens | src/embeddings.py:19-24 | a one-letter text is one token |
| Tfidf.TwoLetterTokens | src/embeddings.py:19-24 | two letters separated by a space are two tokens |
| Tfidf.DocFreq | src/embeddings.py:42-47 | the number of documents containing a token is at most the corpus size, and at least 1 exactly when some document contains it |
| Tfidf.InCorpusTokens | src/embeddings.py:42-47 | a token of the whole corpus is a token of some document, and back, so every corpus token has a document frequency of at least 1 |
| Tfidf.BuildVocabulary | src/embeddings.py:63-65 | the vocabulary's keys are exactly the distinct corpus tokens, numbered bijectively onto 0 .. n-1 |
| Tfidf.ColumnCount | src/embeddings.py:63-65 | the number of columns is the number of distinct corpus tokens |
| Tfidf.OneColumnExample | src/embeddings.py:55-69 | fitting on a one-letter text gives one column |
| Tfidf.TwoColumnsExample | src/embeddings.py:55-69 | fitting on two different one-letter words gives two columns |
| Tfidf.ComputeIdf | src/embeddings.py:37-53 | IDF is defined exactly for corpus tokens and equals `ln(N / d(t))` with `1 <= d(t) <= N` |
| Tfidf.Fit | src/embeddings.py:55-69 | after `fit` the model is fitted, the vocabulary covers exactly the corpus tokens bijectively onto 0 .. n-1, and the IDF table has the same keys with `ln(N / d(t))` values |
| Tfidf.TermFrequency | src/embeddings.py:26-35 | the TF of a token of the text is `count / total`, strictly positive and at most 1 |
| Tfidf.Transform | src/embeddings.py:71-74 | `transform` before `fit` fails with the not-fitted error |
| Tfidf.ScatterWritesWeights | src/embeddings.py:82-86 | the loop over the Counter writes every vocabulary column its TF-IDF weight, never fails and keeps the length |
| Tfidf.Scatter | src/embeddings.py:82-86 | the loop writing `tf * idf` into the column of each distinct token; its contract is stated by `Tfidf.ScatterWritesWeights` and, through `transform`, by `Tfidf.TransformSpec` |
| Tfidf.TransformSpec | src/embeddings.py:71-88 | on a fitted model the vector has vocabulary length; column `vocabulary[t]` holds `tf(t) * idf(t)` for a token of the text and 0 otherwise; a text without tokens gives the zero vector |
| Tfidf.TransformAllSpec | src/embeddings.py:93 | transforming a list succeeds with one vector per text, each equal to that text's own `transform` |
| Tfidf.FitTransformSpec | src/embeddings.py:90-93 | `fit_transform` is `fit` followed by an independent `transform` of each document, each vector of vocabulary length |
| Tfidf.FitTransform | src/embeddings.py:90-93 | `fit` then `transform` of each document; its contract is stated by `Tfidf.FitTransformSpec` |
| VectorStore.AddDocuments | src/embeddings.py:104-112 | the model is re-fit on the new batch alone; records are appended; earlier vectors are kept unchanged; each new vector is its chunk's `transform` under the new model and has its width |
| VectorStore.AppendBatch | src/embeddings.py:111 | extending the vectors puts the batch's vectors at the batch's offset and keeps the earlier ones |
| VectorStore.AddToEmptyIsConsistent | src/embeddings.py:104-112 | adding to a store without records leaves one vector per record, all in the columns of the current vocabulary |
| VectorStore.AddDocumentsLosesConsistency | src/embeddings.py:104-112 | adding to a non-empty store a batch whose vocabulary differs in size leaves the old vectors in the wrong columns |
| VectorStore.AddDocumentsSearchable | src/embeddings.py:104-112 | whatever the store held, `add_documents` leaves a fitted, well-formed model and one vector per record, the precondition of `VectorStore.SimilaritySearchSpec` |
| VectorStore.StaleVectorsExample | src/embeddings.py:104-112 | a store built from the chunk "a" is consistent, and adding the chunk "b c" makes it inconsistent |
| VectorStore.AddDocumentsRefit | src/embeddings.py:104-112 | the corrected operation appends the records, re-fits on every record, and recomputes every vector, so the store stays consistent |
| VectorStore.RefitAgreesOnEmpty | src/embeddings.py:104-112 | on the empty store the corrected and the original operation give the same store |
| VectorStore.DotSymmetric | src/embeddings.py:116 | the dot product over `zip` is symmetric |
| VectorStore.SumOfSquares | src/embeddings.py:117-118 | the sum of squares is non-negative, and zero exactly for the zero vector |
| VectorStore.CosineZeroRule | src/embeddings.py:114-123 | a zero vector on either side gives similarity 0; two non-zero vectors have positive magnitudes and get `dot / (|u| |v|)` |
| VectorStore.CosineSymmetric | src/embeddings.py:114-123 | cosine similarity is symmetric |
| VectorStore.Cosine | src/embeddings.py:114-123 | `_cosine_similarity`; its contract is stated by `VectorStore.CosineZeroRule` (zero rule and quotient) and `VectorStore.CosineSymmetric` |
| VectorStore.Scores | src/embeddings.py:133-136 | one `(similarity, i)` pair per stored vector, in storage order |
| VectorStore.Rank | src/embeddings.py:139 | the reverse sort is a permutation of the pairs, by descending similarity, and equal similarities by strictly descending index |
| VectorStore.RankSelectsTop | src/embeddings.py:139-142 | a vector outside the first `c` ranks ranks below every one of them, so the slice `[:k]` takes the best `k` |
| VectorStore.Hits | src/embeddings.py:141-145 | each result is the record at the pair's index plus its similarity; an index past the records is an IndexError |
| VectorStore.SimilaritySearch | src/embeddings.py:125-147 | an empty store gives `[]`; an unfitted model fails; at most `k` results, by non-increasing similarity |
| VectorStore.SimilaritySearchSpec | src/embeddings.py:125-147 | on a store with a well-formed model and one vector per record, stale vector widths included, the search returns `min(k, n)` results; result `i` is the record of the `i`-th ranked vector with its cosine similarity to the query |
| VectorStore.Load | src/embeddings.py:164-176 | `load` succeeds exactly on a pickled snapshot, and fails with a persistence error otherwise |
| VectorStore.SaveLoadRoundTrip | src/embeddings.py:149-176 | loading what was saved restores vectors, records, vocabulary, IDF table and fitted flag, so every search answers as before |
| VectorStore.Save | src/embeddings.py:149-162 | the dictionary `save` pickles; its contract is stated by `VectorStore.SaveLoadRoundTrip`, which `load` inverts |
| RoleFilter.ParseRole | src/role_filter.py:28-29 | the four known roles map to themselves; every other name is `public` |
| RoleFilter.VisibilityTable | src/role_filter.py:16-19 | `cybersecurity.txt` is visible only to admin and manager, `cloud_devops.txt` to everyone but public, every other source to all roles |
| RoleFilter.FilterDocuments | src/role_filter.py:26-42 | admin and manager get the list unchanged; otherwise the output is an order-preserving subsequence holding every copy of each chunk whose source allows the role and nothing else |
| RoleFilter.Marker | src/role_filter.py:58 | the redaction marker is strictly longer than its keyword |
| RoleFilter.RedactStepIsReplace | src/role_filter.py:54-59 | one loop step replaces exactly the case-sensitive occurrences of the keyword; the case-insensitive gate never changes the outcome |
| RoleFilter.RedactUnchanged | src/role_filter.py:53-59 | a text mentioning no keyword with its case as written leaves the loop unchanged |
| RoleFilter.RedactGrows | src/role_filter.py:53-59 | the loop never shortens the text, and lengthens it when a keyword occurs |
| RoleFilter.RedactOutcome | src/role_filter.py:53-59 | the loop changes the text exactly when some keyword occurs with its case as written |
| RoleFilter.Redact | src/role_filter.py:53-59 | the keyword loop of `filter_response`; its contract is stated by `RoleFilter.RedactOutcome`, `RoleFilter.RedactGrows`, `RoleFilter.RedactUnchanged` and, per step, `RoleFilter.RedactStepIsReplace` |
| RoleFilter.FilterResponse | src/role_filter.py:44-65 | admin gets the response unchanged; for other roles a response without a keyword is returned unchanged, with no disclaimer, and one with a keyword becomes the redacted text plus the disclaimer |
| RoleFilter.FilterResponseChanges | src/role_filter.py:62-63 | the response changes, and so gets the disclaimer, exactly when the role is not admin and a keyword occurs |
| RoleFilter.NoKeywordWithout | src/role_filter.py:21-24 | a text lacking certain letters mentions none of the eight keywords |
| RoleFilter.CapitalisedKeywordNotRedacted | src/role_filter.py:53-63 | "Passwords must be encrypted." reaches a public user unchanged: `Passwords` is not `password` and `encrypted` does not contain `encryption` |
| Feedback.Entries | src/role_filter.py:127-133 | one entry per distinct counted word, with its number of occurrences, in insertion order |
| Feedback.ExtractCommonWords | src/role_filter.py:122-137 | no comments give `[]`; otherwise every counted word (lower-cased, split on whitespace, longer than 3, not a stop word) appears exactly once, by non-increasing count, and equal counts in first-seen order |
| QuerySystem.Retrieve | src/ai_query_system.py:71-74 | the context is at most `top_k` search hits in search order: every copy of each hit visible to the role and no other hit; it fails exactly when the search fails |
| QuerySystem.Similarities | src/ai_query_system.py:103 | one similarity score per filtered chunk, in order |
| QuerySystem.Respond | src/ai_query_system.py:90-106 | the answer carries the question, the role, the model's sources, model name and context count, and one score per chunk; `filtered` holds exactly when the role is not admin and the reply mentions a keyword, and then the response is redacted plus the disclaimer |
| QuerySystem.Query | src/ai_query_system.py:62-108 | an uninitialised system fails; a search failure is the query's failure; an empty filtered context gives the fixed reply with no sources and 0 chunks; otherwise the model is asked with the filtered context |
| QuerySystem.QueryShowsOnlyPermittedChunks | src/ai_query_system.py:71-90 | the language model never sees a chunk the role may not see: models that agree on every permitted context give the same answer |
| QuerySystem.NoContextIgnoresModel | src/ai_query_system.py:76-84 | when nothing survives the filter, the answer is the fixed reply, whatever the language model is |
| QuerySystem.Initialize | src/ai_query_system.py:26-60 | a loadable snapshot is loaded unless a rebuild is forced; otherwise a missing documents directory is the only failure; a successful `initialize` leaves an initialised system whose store file loads back to its store |
| QuerySystem.RebuildAppendsChunks | src/ai_query_system.py:26-56 | a forced or fallback rebuild is `add_documents` of the documents' chunk records onto the store held in memory, saved to the store file; from an empty store the result is consistent |
| QuerySystem.ForcedRebuildLosesConsistency | src/ai_query_system.py:31-53 | a forced rebuild of a system holding a consistent index, with chunks whose vocabulary has another size, leaves an inconsistent index |
| QuerySystem.Rebuild | src/ai_query_system.py:45-53 | the rebuild branch of `initialize`; its contract is stated by `QuerySystem.RebuildAppendsChunks` and `QuerySystem.ForcedRebuildLosesConsistency` |
| QuerySystem.InitializeFresh | src/ai_query_system.py:26-56 | building a fresh system gives the consistent store of exactly the documents' chunks that `add_documents` builds, and a second `initialize` without `force_rebuild` loads it back unchanged |

## Left out

- File I/O: `load_documents`, `_load_text_file`, the existence check and the pickle byte format are not modelled. The documents are an `Option<seq<Document>>`, where `None` is the missing directory. The store file is `Missing`, `Unreadable` or `Pickled(snapshot)`.
- A snapshot that unpickles but lacks a key makes `load` fail after it has already replaced some fields. The model treats every readable snapshot as complete.
- Floating point: all arithmetic is on `real`. `math.log` and `math.sqrt` are the parameters `ln` and `sqrt`. Cosine similarity is not shown to lie in [-1, 1], and self-similarity is not shown to be 1.
- The vocabulary numbering: the code numbers the tokens in `set` iteration order, which is unspecified. The model uses first-seen order, and no stated property depends on the choice.
- Strings.IsWordChar: `\w` is restricted to ASCII letters, digits and `_`, and `lower`/`upper` act on ASCII letters only. Unicode case mapping and Unicode word characters are left out.
- Strings.Replace: its contract states what the redaction needs. It says the text is unchanged without the pattern, that the text grows, and that the replacement appears. It does not characterise the left-to-right, non-overlapping replacement in full.
- Chunker.ChunkText: requires `chunk_size > 0`, which `process_documents` always passes (500). `chunk_size <= 0` is not modelled; with `chunk_size` 0 and `overlap >= 0` the code's loop never ends.
- Tfidf.Transform: on a model that is not well formed, such as a foreign snapshot, its contract states only the not-fitted error. The out-of-range column error is modelled but not characterised.
- VectorStore.SimilaritySearchSpec: requires a well-formed model and one vector per record. `add_documents` always keeps both (`VectorStore.AddDocumentsSearchable`); only a foreign snapshot can break them, and its search is described only by `SimilaritySearch`'s own contract.
- VectorStore.SimilaritySearch: `k` is a `nat`. Python's slicing with a negative `k` is not modelled.
- RoleFilter.FilterDocuments: every chunk record carries a `source`, so the code's default of `''` for a missing key does not arise.
- `get_feedback_stats` is left out, because it reads a file and rounds a percentage. So are `add_feedback`, `get_system_info` and `list_documents`.
- `llm_interface.py` is not part of this model: the language model is the parameter `generate`. The API server and the front-end are left out, as are timestamps, `print` logging and the `__main__` blocks.

## Findings

| source | as written | input that shows it | evidently intended | confidence | as-written member | corrected member |
|---|---|---|---|---|---|---|
| src/embeddings.py:104-112 | `add_documents` re-fits the shared vectorizer on the new batch alone and keeps the vectors computed under the previous vocabulary | a store built from the chunk "a" (one column), then `add_documents` of the chunk "b c" (two columns): the first vector keeps one column while the model now has two; a forced `initialize` of a loaded system reaches this (`QuerySystem.ForcedRebuildLosesConsistency`) | re-fit on every record and recompute every vector, so all vectors share the current vocabulary | medium, not executed | VectorStore.StaleVectorsExample | VectorStore.AddDocumentsRefit |
