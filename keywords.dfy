/**
 * The keyword pipeline of `get_keywords.py`: the words of every title, the
 * words left after the stop list, their frequencies, and the head of the
 * frequency table that the chart shows.
 */
module Keywords {
  import opened Basics
  import opened Text
  import opened Sorting
  import opened Tally
  import opened Frames

  // ---------------------------------------------------------------- get_all_words

  /** Reference definition: the words of each title, title after title. */
  function TitleWords(titles: seq<string>): seq<string> {
    FlatMap(titles, Split)
  }

  /** The words of two runs of titles are the words of the first run, then of the second. */
  lemma TitleWordsAppend(a: seq<string>, b: seq<string>)
    ensures TitleWords(a + b) == TitleWords(a) + TitleWords(b)
  {
    FlatMapAppend(a, b, Split);
  }

  /** Every word is non-empty and holds no whitespace, as no-argument `split` guarantees. */
  lemma TitleWordsAreWords(titles: seq<string>)
    ensures forall i :: 0 <= i < |TitleWords(titles)| ==> TitleWords(titles)[i] != [] && NoSpace(TitleWords(titles)[i])
  {
    FlatMapAll(titles, Split, IsWord);
  }

  predicate IsWord(w: string) {
    w != [] && NoSpace(w)
  }

  /** Every cell of the column is text. */
  predicate AllText(t: Table, name: string) {
    forall i :: 0 <= i < |t.rows| ==> Get(t.rows[i], name).Text?
  }

  function TextOf(c: Cell): string {
    if c.Text? then c.s else []
  }

  /** Every cell is text. */
  predicate TextCells(cells: seq<Cell>) {
    forall i :: 0 <= i < |cells| ==> cells[i].Text?
  }

  /** The titles of the frame, in row order. */
  function Titles(books: Table): (titles: seq<string>)
    ensures |titles| == |books.rows|
  {
    MapSeq(Column(books, "title"), TextOf)
  }

  lemma TitleWordsStep(titles: seq<string>, i: int)
    requires 0 <= i < |titles|
    ensures TitleWords(titles[..i + 1]) == TitleWords(titles[..i]) + Split(titles[i])
  {
    assert titles[..i + 1] == titles[..i] + [titles[i]];
    FlatMapSnoc(titles[..i], titles[i], Split);
  }

  /**
   * `get_all_words`: `books['title']` raises without that column, `title.split()`
   * raises on a title that is not text, and otherwise the words of all titles
   * are collected in order.
   */
  method GetAllWords(books: Table) returns (r: Result<seq<string>>)
    ensures "title" !in books.columns ==> r == Err(MissingColumn("title"))
    ensures "title" in books.columns && !AllText(books, "title") ==> r == Err(NotText("title"))
    ensures "title" in books.columns && AllText(books, "title") ==> r == Ok(TitleWords(Titles(books)))
  {
    if "title" !in books.columns {
      return Err(MissingColumn("title"));
    }
    var cells := Column(books, "title");
    r := CollectWords(cells);
  }

  /** The words of the text cells, cell after cell. */
  function CellWords(cells: seq<Cell>): seq<string> {
    TitleWords(MapSeq(cells, TextOf))
  }

  lemma CellWordsStep(cells: seq<Cell>, i: int)
    requires 0 <= i < |cells| && cells[i].Text?
    ensures CellWords(cells[..i + 1]) == CellWords(cells[..i]) + Split(cells[i].s)
  {
    var titles := MapSeq(cells[..i + 1], TextOf);
    assert titles[..i] == MapSeq(cells[..i], TextOf);
    assert titles[i] == cells[i].s;
    TitleWordsStep(titles, i);
    assert titles[..i + 1] == titles;
  }

  /** The loop of `get_all_words` over the cells of the title column. */
  method CollectWords(cells: seq<Cell>) returns (r: Result<seq<string>>)
    ensures !TextCells(cells) ==> r == Err(NotText("title"))
    ensures TextCells(cells) ==> r == Ok(CellWords(cells))
  {
    var allWords: seq<string> := [];
    var i := 0;
    while i < |cells|
      invariant 0 <= i <= |cells|
      invariant forall j :: 0 <= j < i ==> cells[j].Text?
      invariant allWords == CellWords(cells[..i])
    {
      if !cells[i].Text? {
        return Err(NotText("title"));
      }
      CellWordsStep(cells, i);
      allWords := allWords + Split(cells[i].s);
      i := i + 1;
    }
    assert cells[..i] == cells;
    return Ok(allWords);
  }

  // ---------------------------------------------------------------- filter_stop_words

  /** The stop list of `filter_stop_words`, as written there ('is' comes twice). */
  const StopWords: seq<string> := [
    "the", "and", "of", "a", "to", "in", "is", "it", "that", "part",
    "for", "on", "with", "as", "by", "at", "is", "an", "be",
    "this", "from", "or", "are", "but", "not", "his", "her",
    "its", "he", "she", "they", "you", "we", "my", "your", "their",
    "all", "some", "no", "if", "when", "what", "which", "who",
    "so", "about", "into", "than", "then", "there", "i", "me",
    "do", "does", "did", "have", "has", "had", "one", "two", "three", "didn't",
    "can", "could", "would", "should", "will", "just", "more", "&", "after", "other", "before", "volume"]

  /** `word not in stop_words`. */
  predicate NotStopWord(w: string) {
    forall k :: 0 <= k < |StopWords| ==> StopWords[k] != w
  }

  /** The lower-cased words that are not stop words, in their original order. */
  function FilterStopWords(words: seq<string>): (r: seq<string>)
    ensures |r| <= |words|
    ensures forall i :: 0 <= i < |r| ==> IsLower(r[i]) && NotStopWord(r[i])
  {
    if words == [] then []
    else
      var w := Lower(words[0]);
      (if NotStopWord(w) then [w] else []) + FilterStopWords(words[1..])
  }

  /**
   * The comprehension is the stop-list filter applied to the lower-cased words:
   * the kept words keep their order, and a word is kept exactly when its lower
   * case is not a stop word.
   */
  lemma {:induction false} FilterStopWordsIsFilter(words: seq<string>)
    ensures FilterStopWords(words) == Filter(MapSeq(words, Lower), NotStopWord)
  {
    if words != [] {
      FilterStopWordsIsFilter(words[1..]);
      var m := MapSeq(words, Lower);
      assert m[0] == Lower(words[0]);
      assert m[1..] == MapSeq(words[1..], Lower);
    }
  }

  /** A word is kept exactly when it is the lower case of some input word and not a stop word. */
  lemma FilterStopWordsMembers(words: seq<string>)
    ensures forall w :: w in FilterStopWords(words) <==> NotStopWord(w) && w in MapSeq(words, Lower)
  {
    FilterStopWordsIsFilter(words);
    FilterMembers(MapSeq(words, Lower), NotStopWord);
  }

  lemma FilterStopWordsOrder(words: seq<string>)
    ensures Subsequence(FilterStopWords(words), MapSeq(words, Lower))
  {
    FilterStopWordsIsFilter(words);
    FilterSubsequence(MapSeq(words, Lower), NotStopWord);
  }

  lemma {:induction false} FilterStopWordsAppend(a: seq<string>, b: seq<string>)
    ensures FilterStopWords(a + b) == FilterStopWords(a) + FilterStopWords(b)
  {
    if a == [] {
      assert a + b == b;
    } else {
      assert (a + b)[0] == a[0];
      assert (a + b)[1..] == a[1..] + b;
      FilterStopWordsAppend(a[1..], b);
    }
  }

  /** Filtering the filtered words again changes nothing. */
  lemma {:induction false} FilterStopWordsIdempotent(words: seq<string>)
    ensures FilterStopWords(FilterStopWords(words)) == FilterStopWords(words)
  {
    if words != [] {
      var rest := FilterStopWords(words[1..]);
      FilterStopWordsIdempotent(words[1..]);
      var w := Lower(words[0]);
      if NotStopWord(w) {
        assert FilterStopWords(words) == [w] + rest;
        LowerIdempotent(words[0]);
        FilterStopWordsAppend([w], rest);
        assert FilterStopWords([w]) == [w] by {
          assert [w][1..] == [];
        }
      } else {
        assert FilterStopWords(words) == rest;
      }
    }
  }

  // ---------------------------------------------------------------- get_word_frequencies

  /** The sort key of a frequency row. */
  function FrequencyKey(e: Entry<string>): Option<real> {
    Some(e.total as real)
  }

  /**
   * `pd.Series(words).value_counts().reset_index()` with columns 'word' and
   * 'frequency': one row per distinct word and its count, most frequent first.
   */
  function WordFrequencies(words: seq<string>): (r: seq<Entry<string>>)
    ensures SortedDesc(r, FrequencyKey)
    ensures multiset(r) == multiset(Group(Ones(words)))
  {
    SortDesc(Group(Ones(words)), FrequencyKey)
  }

  lemma CountsOfGroup(words: seq<string>, i: int)
    requires 0 <= i < |Group(Ones(words))|
    ensures Group(Ones(words))[i].total == multiset(words)[Group(Ones(words))[i].key]
  {
    var g := Group(Ones(words));
    GroupCorrect(Ones(words));
    LookupAt(g, i);
    OnesWeight(words, g[i].key);
  }

  lemma FrequencyCounts(words: seq<string>)
    ensures forall i :: 0 <= i < |WordFrequencies(words)| ==>
      WordFrequencies(words)[i].total == multiset(words)[WordFrequencies(words)[i].key]
  {
    var g := Group(Ones(words));
    var r := WordFrequencies(words);
    forall i | 0 <= i < |r|
      ensures r[i].total == multiset(words)[r[i].key]
    {
      assert r[i] in multiset(g);
      var j :| 0 <= j < |g| && g[j] == r[i];
      CountsOfGroup(words, j);
    }
  }

  lemma FrequencyKeys(words: seq<string>)
    ensures forall w :: w in KeysOf(WordFrequencies(words)) <==> w in KeysOf(Group(Ones(words)))
  {
    PermutedKeys(WordFrequencies(words), Group(Ones(words)));
  }

  /**
   * The frequency table is right: one row per distinct word, every word of the
   * input has a row, each frequency is that word's number of occurrences, and
   * the frequencies add up to the number of words.
   */
  lemma WordFrequenciesCorrect(words: seq<string>)
    ensures DistinctBy(WordFrequencies(words), KeyOf)
    ensures forall w :: w in KeysOf(WordFrequencies(words)) <==> w in words
    ensures forall i :: 0 <= i < |WordFrequencies(words)| ==>
      && WordFrequencies(words)[i].total == multiset(words)[WordFrequencies(words)[i].key]
      && WordFrequencies(words)[i].total > 0
    ensures SumBy(WordFrequencies(words), TotalOf) == |words|
  {
    var g := Group(Ones(words));
    var r := WordFrequencies(words);
    GroupCorrect(Ones(words));
    OnesSum(words);
    DistinctByPermutation(g, r, KeyOf);
    SumByPermutation(g, r, TotalOf);
    FrequencyKeys(words);
    FrequencyCounts(words);
    forall i | 0 <= i < |r|
      ensures r[i].total > 0
    {
      assert KeysOf(r)[i] == r[i].key;
      assert r[i].key in words;
    }
  }

  // ---------------------------------------------------------------- head(top_n)

  function Min(a: int, b: int): int { if a <= b then a else b }

  /** `DataFrame.head(n)`: the first n rows, or all but the last -n rows when n is negative. */
  function Head<T>(s: seq<T>, n: int): (r: seq<T>)
    ensures |r| == if n >= 0 then Min(n, |s|) else if |s| + n >= 0 then |s| + n else 0
    ensures forall i :: 0 <= i < |r| ==> r[i] == s[i]
  {
    if n >= 0 then s[..Min(n, |s|)]
    else if |s| + n >= 0 then s[..|s| + n]
    else []
  }

  /** The number of rows the keyword chart shows. */
  const TopN: int := 20

  function TopWords(counts: seq<Entry<string>>): seq<Entry<string>> {
    Head(counts, TopN)
  }

  /**
   * The chart's rows are the most frequent words: at most twenty, still in
   * frequency order, and no word left out is more frequent than one shown.
   */
  lemma TopWordsAreTop(words: seq<string>)
    ensures |TopWords(WordFrequencies(words))| == Min(TopN, |WordFrequencies(words)|)
    ensures SortedDesc(TopWords(WordFrequencies(words)), FrequencyKey)
    ensures forall i, j :: 0 <= i < |TopWords(WordFrequencies(words))| <= j < |WordFrequencies(words)| ==>
      WordFrequencies(words)[j].total <= TopWords(WordFrequencies(words))[i].total
  {
    var r := WordFrequencies(words);
    var top := TopWords(r);
    forall i, j | 0 <= i < |top| <= j < |r|
      ensures r[j].total <= top[i].total
    {
      assert Precedes(FrequencyKey(r[i]), FrequencyKey(r[j]));
    }
  }
}
