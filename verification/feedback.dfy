/** FeedbackAnalyzer._extract_common_words: the words of feedback comments, most
    frequent first. */
module Feedback {
  import opened Seqs
  import opened Strings
  import opened Sorting

  /** Short function words the analyzer never counts. */
  const StopWords: seq<string> := ["this", "that", "with", "from", "they", "have", "were", "been", "their"]

  /** A word is counted when it is longer than three characters and not a stop
      word. */
  predicate Counted(w: string) {
    |w| > 3 && w !in StopWords
  }

  /** Every whitespace-separated word of every lower-cased comment, in order. */
  function AllWords(comments: seq<string>): seq<string>
    decreases |comments|
  {
    if comments == [] then [] else SplitWhitespace(Lower(comments[0])) + AllWords(comments[1..])
  }

  /** The words the loop counts, in the order it meets them. */
  function CountedWords(comments: seq<string>): seq<string> {
    Filter(AllWords(comments), Counted)
  }

  /** A distinct counted word with its number of occurrences and its position in
      first-seen order (the insertion order of `word_count`). */
  datatype Entry = Entry(word: string, count: nat, pos: nat)

  /** `sorted(..., key=count, reverse=True)`, a stable sort: higher count first,
      and equal counts in insertion order. */
  predicate MoreFrequent(a: Entry, b: Entry) {
    a.count > b.count || (a.count == b.count && a.pos <= b.pos)
  }

  lemma MoreFrequentIsTotalPreorder()
    ensures TotalPreorder(MoreFrequent)
  {
  }

  /** The items of `word_count`, in insertion order. */
  function Entries(words: seq<string>): (es: seq<Entry>)
    ensures |es| == |Distinct(words)|
    ensures forall i :: 0 <= i < |es| ==>
              es[i] == Entry(Distinct(words)[i], Count(words, Distinct(words)[i]), i)
    ensures NoDuplicates(es)
  {
    var d := Distinct(words);
    seq(|d|, i requires 0 <= i < |d| => Entry(d[i], Count(words, d[i]), i))
  }

  /** `_extract_common_words`: no comments give no words; otherwise every counted
      word exactly once, by descending number of occurrences, words with equal
      counts in the order they were first met. */
  function ExtractCommonWords(comments: seq<string>): (r: seq<string>)
    ensures comments == [] ==> r == []
    ensures NoDuplicates(r)
    ensures forall i :: 0 <= i < |r| ==> r[i] in CountedWords(comments) && Counted(r[i])
    ensures forall j :: 0 <= j < |CountedWords(comments)| ==> CountedWords(comments)[j] in r
    ensures forall i, j :: 0 <= i < j < |r| ==>
              Count(CountedWords(comments), r[i]) >= Count(CountedWords(comments), r[j])
    ensures forall i, j :: 0 <= i < j < |r| ==>
              (Count(CountedWords(comments), r[i]) == Count(CountedWords(comments), r[j]) ==>
               FirstIndex(CountedWords(comments), r[i]) < FirstIndex(CountedWords(comments), r[j]))
  {
    if comments == [] then []
    else
      var words := CountedWords(comments);
      FilterMembers(AllWords(comments), Counted);
      var es := Entries(words);
      MoreFrequentIsTotalPreorder();
      var sorted := InsertionSort(es, MoreFrequent);
      PermutedEntries(words, sorted);
      SortedWordsOrder(words, sorted);
      SortedWordsCover(words, sorted);
      Words(sorted)
  }

  function Words(es: seq<Entry>): (r: seq<string>)
    ensures |r| == |es| && forall i :: 0 <= i < |es| ==> r[i] == es[i].word
  {
    seq(|es|, i requires 0 <= i < |es| => es[i].word)
  }

  /** Every sorted entry is the entry at its own position. */
  ghost predicate AtOwnPosition(sorted: seq<Entry>, es: seq<Entry>) {
    forall i :: 0 <= i < |sorted| ==> sorted[i].pos < |es| && sorted[i] == es[sorted[i].pos]
  }

  lemma PermutedEntries(words: seq<string>, sorted: seq<Entry>)
    requires multiset(sorted) == multiset(Entries(words))
    ensures AtOwnPosition(sorted, Entries(words))
  {
    var es := Entries(words);
    forall i | 0 <= i < |sorted|
      ensures sorted[i].pos < |es| && sorted[i] == es[sorted[i].pos]
    {
      assert sorted[i] in multiset(es);
      var p :| 0 <= p < |es| && es[p] == sorted[i];
    }
  }

  /** Sorted entries give distinct words, by descending count, equal counts in
      first-seen order. */
  lemma SortedWordsOrder(words: seq<string>, sorted: seq<Entry>)
    requires AtOwnPosition(sorted, Entries(words))
    requires SortedBy(sorted, MoreFrequent) && NoDuplicates(sorted)
    ensures forall i, j :: 0 <= i < j < |sorted| ==>
              && Words(sorted)[i] != Words(sorted)[j]
              && Count(words, Words(sorted)[i]) >= Count(words, Words(sorted)[j])
              && (Count(words, Words(sorted)[i]) == Count(words, Words(sorted)[j]) ==>
                  FirstIndex(words, Words(sorted)[i]) < FirstIndex(words, Words(sorted)[j]))
  {
    var es := Entries(words);
    var d := Distinct(words);
    var r := Words(sorted);
    DistinctFirstSeenOrder(words);
    forall i, j | 0 <= i < j < |sorted|
      ensures r[i] != r[j]
      ensures Count(words, r[i]) >= Count(words, r[j])
      ensures Count(words, r[i]) == Count(words, r[j]) ==> FirstIndex(words, r[i]) < FirstIndex(words, r[j])
    {
      assert MoreFrequent(sorted[i], sorted[j]);
      assert sorted[i] != sorted[j];
      var p, q := sorted[i].pos, sorted[j].pos;
      assert p != q;
      assert r[i] == d[p] && r[j] == d[q];
    }
  }

  /** Every counted word is among the sorted entries' words. */
  lemma SortedWordsCover(words: seq<string>, sorted: seq<Entry>)
    requires multiset(sorted) == multiset(Entries(words))
    ensures forall j :: 0 <= j < |words| ==> words[j] in Words(sorted)
  {
    var es := Entries(words);
    var d := Distinct(words);
    forall j | 0 <= j < |words|
      ensures words[j] in Words(sorted)
    {
      var p := FirstIndex(d, words[j]);
      assert es[p] in multiset(sorted);
      var q :| 0 <= q < |sorted| && sorted[q] == es[p];
      assert Words(sorted)[q] == words[j];
    }
  }
}
