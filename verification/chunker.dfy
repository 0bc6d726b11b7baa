/** DocumentProcessor: cutting document text into overlapping, sentence-aligned
    chunks and labelling each chunk with its document and ordinal. */
module Chunker {
  import opened Strings
  import opened Seqs

  /** Defaults `process_documents` uses when it calls `chunk_text`. */
  const DefaultChunkSize: int := 500
  const DefaultOverlap: int := 50

  /** A loaded `.txt` file. */
  datatype Document = Document(filename: string, content: string, filePath: string)

  /** The metadata record of one chunk: its text, the file it came from and its
      ordinal within that file. */
  datatype Chunk = Chunk(text: string, source: string, chunkId: nat, filePath: string)

  predicate IsSentenceEnd(c: char) {
    c == '.' || c == '?' || c == '!'
  }

  /** `c` is a contiguous slice of `text`. */
  ghost predicate IsSliceOf(c: string, text: string) {
    exists a, b :: 0 <= a <= b <= |text| && c == text[a..b]
  }

  function Min(a: int, b: int): int {
    if a <= b then a else b
  }

  function Max3(a: int, b: int, c: int): (m: int)
    ensures m == a || m == b || m == c
    ensures m >= a && m >= b && m >= c
  {
    if a >= b && a >= c then a else if b >= c then b else c
  }

  /** `text.rfind(c, lo, hi)`: the last position of `c` in `[lo, hi)`, or -1. */
  function RFind(text: string, c: char, lo: nat, hi: nat): (p: int)
    requires lo <= hi <= |text|
    ensures -1 <= p < hi
    ensures p >= 0 ==> lo <= p && text[p] == c && forall q :: p < q < hi ==> text[q] != c
    ensures p == -1 ==> forall q :: lo <= q < hi ==> text[q] != c
    decreases hi - lo
  {
    if lo == hi then -1
    else if text[hi - 1] == c then hi - 1
    else RFind(text, c, lo, hi - 1)
  }

  /** The larger of the three `rfind` results: the last sentence end in `[lo, hi)`,
      whichever of `.`, `?`, `!` it is, or -1 when the window has none. */
  function BestBreak(text: string, lo: nat, hi: nat): (p: int)
    requires lo <= hi <= |text|
    ensures -1 <= p < hi
    ensures p == -1 ==> forall q :: lo <= q < hi ==> !IsSentenceEnd(text[q])
    ensures p >= 0 ==> lo <= p && IsSentenceEnd(text[p])
    ensures p >= 0 ==> forall q :: p < q < hi ==> !IsSentenceEnd(text[q])
  {
    Max3(RFind(text, '.', lo, hi), RFind(text, '?', lo, hi), RFind(text, '!', lo, hi))
  }

  /** Where the window starting at `start` ends. A window that does not reach the end
      of the text is cut just after its last sentence end, provided that sentence end
      lies strictly after `start`; the search covers the whole window. */
  function WindowEnd(text: string, start: nat, chunkSize: int): (e: int)
    requires start < |text| && chunkSize > 0
    ensures start < e <= start + chunkSize
    ensures start + chunkSize >= |text| ==> e == start + chunkSize
    ensures start + chunkSize < |text| ==>
              if exists p :: start < p < start + chunkSize && IsSentenceEnd(text[p])
              then start + 1 < e && IsSentenceEnd(text[e - 1])
                   && forall q :: e <= q < start + chunkSize ==> !IsSentenceEnd(text[q])
              else e == start + chunkSize
  {
    var end := start + chunkSize;
    if end < |text| then
      var best := BestBreak(text, start, end);
      if best > start then best + 1 else end
    else end
  }

  /** The next window start: back off by `overlap`, unless that would not move past
      `start`, in which case jump to `end`. */
  function NextStart(start: nat, end: int, overlap: int): (r: nat)
    requires start < end
    ensures r > start
    ensures r == end - overlap || (r == end && end - overlap <= start)
  {
    if end - overlap <= start then end else end - overlap
  }

  /** The chunks produced from the window starting at `start` onwards. Every chunk
      is a non-empty slice of `text` no longer than `chunkSize`. */
  function ChunkFrom(text: string, chunkSize: int, overlap: int, start: nat): (r: seq<string>)
    requires chunkSize > 0
    ensures forall i :: 0 <= i < |r| ==> IsChunkOf(r[i], text, chunkSize)
    decreases |text| - start
  {
    if start >= |text| then []
    else
      var end := WindowEnd(text, start, chunkSize);
      var stop := Min(end, |text|);
      var slice := text[start..stop];
      var chunk := Strip(slice);
      SliceOfSlice(text, start, stop, StripStart(slice), StripEnd(slice));
      assert chunk != [] ==> IsChunkOf(chunk, text, chunkSize);
      var rest := ChunkFrom(text, chunkSize, overlap, NextStart(start, end, overlap));
      if chunk == [] then rest else [chunk] + rest
  }

  /** A chunk of the long path: a non-empty slice of the text of at most
      `chunkSize` characters, stripped of whitespace at both ends. */
  ghost predicate IsChunkOf(c: string, text: string, chunkSize: int) {
    && 0 < |c| <= chunkSize
    && IsSliceOf(c, text)
    && !IsSpace(c[0]) && !IsSpace(c[|c| - 1])
  }

  lemma SliceOfSlice(text: string, lo: nat, hi: nat, a: nat, b: nat)
    requires lo <= hi <= |text| && a <= b <= hi - lo
    ensures text[lo..hi][a..b] == text[lo + a..lo + b]
  {
    assert forall k :: 0 <= k < b - a ==> text[lo..hi][a..b][k] == text[lo + a + k];
  }

  /** The chunk cut from the window starting at `start` (empty when the window is
      whitespace only). */
  function WindowChunk(text: string, chunkSize: int, start: nat): string
    requires start < |text| && chunkSize > 0
  {
    Strip(text[start..Min(WindowEnd(text, start, chunkSize), |text|)])
  }

  lemma ChunkFromStep(text: string, chunkSize: int, overlap: int, start: nat)
    requires chunkSize > 0 && start < |text|
    ensures var chunk := WindowChunk(text, chunkSize, start);
            var next := NextStart(start, WindowEnd(text, start, chunkSize), overlap);
            ChunkFrom(text, chunkSize, overlap, start)
            == (if chunk == [] then [] else [chunk]) + ChunkFrom(text, chunkSize, overlap, next)
  {
  }

  /** `chunk_text`: a text that fits in one chunk is returned whole and untrimmed
      (so "" gives [""]); a longer text is cut window by window into stripped
      chunks, dropping windows that are whitespace only. */
  function ChunkText(text: string, chunkSize: int, overlap: int): (r: seq<string>)
    requires chunkSize > 0
    ensures |text| <= chunkSize ==> r == [text]
    ensures forall i :: 0 <= i < |r| ==> |r[i]| <= chunkSize && IsSliceOf(r[i], text)
    ensures |text| > chunkSize ==>
              forall i :: 0 <= i < |r| ==> |r[i]| > 0 && !IsSpace(r[i][0]) && !IsSpace(r[i][|r[i]| - 1])
  {
    if |text| <= chunkSize then
      assert text == text[0..|text|];
      [text]
    else ChunkFrom(text, chunkSize, overlap, 0)
  }

  /** The sentence-snapping step of the loop body, as the code writes it. */
  method FindWindowEnd(text: string, start: nat, chunkSize: int) returns (end: int)
    requires start < |text| && chunkSize > 0
    ensures end == WindowEnd(text, start, chunkSize)
  {
    end := start + chunkSize;
    if end < |text| {
      var lastPeriod := RFind(text, '.', start, end);
      var lastQuestion := RFind(text, '?', start, end);
      var lastExclamation := RFind(text, '!', start, end);
      var bestBreak := Max3(lastPeriod, lastQuestion, lastExclamation);
      if bestBreak > start {
        end := bestBreak + 1;
      }
    }
  }

  /** One iteration of the loop body of `chunk_text`: cut the window at `start`,
      keep it if it is not blank, and move the start forward. */
  method LoopStep(text: string, chunkSize: int, overlap: int, start: nat, chunks: seq<string>)
    returns (start': nat, chunks': seq<string>)
    requires chunkSize > 0 && start < |text|
    ensures start' > start
    ensures chunks' + ChunkFrom(text, chunkSize, overlap, start')
            == chunks + ChunkFrom(text, chunkSize, overlap, start)
  {
    var end := FindWindowEnd(text, start, chunkSize);
    var chunk := Strip(text[start..Min(end, |text|)]);
    assert chunk == WindowChunk(text, chunkSize, start);
    var piece := if chunk == [] then [] else [chunk];
    chunks' := chunks;
    if chunk != [] {
      chunks' := chunks + [chunk];
    }
    if end - overlap <= start {
      start' := end;
    } else {
      start' := end - overlap;
    }
    assert start' == NextStart(start, end, overlap);
    ChunkFromStep(text, chunkSize, overlap, start);
    AppendAssociative(chunks, piece, ChunkFrom(text, chunkSize, overlap, start'));
  }

  /** The `while` loop of `chunk_text`; it computes `ChunkText`. */
  method ChunkTextLoop(text: string, chunkSize: int, overlap: int) returns (chunks: seq<string>)
    requires chunkSize > 0
    ensures chunks == ChunkText(text, chunkSize, overlap)
  {
    if |text| <= chunkSize {
      return [text];
    }
    chunks := [];
    var start: nat := 0;
    while start < |text|
      invariant chunks + ChunkFrom(text, chunkSize, overlap, start) == ChunkFrom(text, chunkSize, overlap, 0)
      decreases |text| - start
    {
      start, chunks := LoopStep(text, chunkSize, overlap, start, chunks);
    }
  }

  /** The chunk records of one document, numbered 0, 1, 2, ... */
  function DocumentChunks(d: Document): seq<Chunk> {
    var texts := ChunkText(d.content, DefaultChunkSize, DefaultOverlap);
    seq(|texts|, i requires 0 <= i < |texts| => Chunk(texts[i], d.filename, i, d.filePath))
  }

  /** The chunk records of each document, document by document. */
  function PerDocument(docs: seq<Document>): (r: seq<seq<Chunk>>)
    ensures |r| == |docs| && forall n :: 0 <= n < |docs| ==> r[n] == DocumentChunks(docs[n])
  {
    seq(|docs|, n requires 0 <= n < |docs| => DocumentChunks(docs[n]))
  }

  /** `process_documents` over documents already loaded: each document's chunk
      records in turn. */
  function ProcessDocuments(docs: seq<Document>): seq<Chunk> {
    Flatten(PerDocument(docs))
  }

  function ChunkCount(d: Document): nat {
    |ChunkText(d.content, DefaultChunkSize, DefaultOverlap)|
  }

  /** Number of chunk records emitted for the first `n` documents. */
  function Offset(docs: seq<Document>, n: nat): nat
    requires n <= |docs|
  {
    FlatOffset(PerDocument(docs), n)
  }

  /** Position `Offset(docs, n) + i` of the output holds the `i`-th chunk of
      document `n`, labelled with that document's filename and the ordinal `i`. */
  ghost predicate RecordPlaced(docs: seq<Document>, n: nat, i: nat)
    requires n < |docs| && i < ChunkCount(docs[n])
  {
    && Offset(docs, n) + i < |ProcessDocuments(docs)|
    && ProcessDocuments(docs)[Offset(docs, n) + i]
       == Chunk(ChunkText(docs[n].content, DefaultChunkSize, DefaultOverlap)[i],
                docs[n].filename, i, docs[n].filePath)
  }

  /** The records of each document appear in document order, numbered 0, 1, 2, ...
      and labelled with the document's filename; in all there are as many records
      as the documents have chunks. */
  lemma ProcessDocumentsLayout(docs: seq<Document>)
    ensures |ProcessDocuments(docs)| == Offset(docs, |docs|)
    ensures forall n: nat, i: nat :: n < |docs| && i < ChunkCount(docs[n]) ==> RecordPlaced(docs, n, i)
  {
    FlattenLength(PerDocument(docs));
    forall n: nat, i: nat | n < |docs| && i < ChunkCount(docs[n])
      ensures RecordPlaced(docs, n, i)
    {
      RecordAt(docs, n, i);
    }
  }

  lemma RecordAt(docs: seq<Document>, n: nat, i: nat)
    requires n < |docs| && i < ChunkCount(docs[n])
    ensures RecordPlaced(docs, n, i)
  {
    var d := docs[n];
    var per := PerDocument(docs);
    DocumentChunkAt(d, i);
    var x := DocumentChunks(d)[i];
    assert per[n][i] == x;
    FlattenIndex(per, n, i);
    assert ProcessDocuments(docs)[Offset(docs, n) + i] == x;
  }

  lemma DocumentChunkAt(d: Document, i: nat)
    requires i < ChunkCount(d)
    ensures |DocumentChunks(d)| == ChunkCount(d)
    ensures DocumentChunks(d)[i]
            == Chunk(ChunkText(d.content, DefaultChunkSize, DefaultOverlap)[i], d.filename, i, d.filePath)
  {
  }
}
