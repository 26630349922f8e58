/**
 * Tag generation. Both front ends count words with `Counter` and keep the
 * `most_common` ones: the indexer script (`index_documents.py`) keeps `\w+`
 * words longer than three characters that are not stopwords; the Qt app
 * (`retail_demo_bot.py`) keeps alphabetic non-stopword tokens of the NLTK word
 * tokenizer and adds the `\w+` words of the file name.
 */
module Tags {
  import opened Text
  import opened Collections

  /** The number of times each word occurs in `words`. */
  function Frequency(words: seq<string>): string -> int {
    w => multiset(words)[w]
  }

  /**
   * `Counter(words).most_common(n)`: the distinct words in first-occurrence
   * order, stably sorted by descending count, cut to the first `n`.
   */
  function MostCommon(words: seq<string>, n: nat): (r: seq<string>)
    ensures |r| <= n && Distinct(r)
    ensures forall w :: w in r ==> w in words
    ensures NonIncreasing(r, Frequency(words))
  {
    var distinct := Dedup(words);
    var ranked := SortDesc(distinct, Frequency(words));
    SortDescSorted(distinct, Frequency(words));
    SortDescPerm(distinct, Frequency(words));
    DistinctPermutation(distinct, ranked);
    var r := PrefixSlice(ranked, n);
    assert forall i :: 0 <= i < |r| ==> r[i] == ranked[i];
    assert forall w :: w in r ==> w in multiset(ranked);
    r
  }

  /**
   * The words `most_common` returns are the most frequent ones: a word left out
   * is only left out when all `n` places went to words at least as frequent.
   */
  lemma {:induction false} MostCommonIsTop(words: seq<string>, n: nat, w: string)
    requires w in words && w !in MostCommon(words, n)
    ensures |MostCommon(words, n)| == n
    ensures forall t :: t in MostCommon(words, n) ==> Frequency(words)(t) >= Frequency(words)(w)
  {
    var distinct := Dedup(words);
    var ranked := SortDesc(distinct, Frequency(words));
    SortDescSorted(distinct, Frequency(words));
    SortDescPerm(distinct, Frequency(words));
    assert w in multiset(ranked);
    var p :| 0 <= p < |ranked| && ranked[p] == w;
    var r := MostCommon(words, n);
    assert r == PrefixSlice(ranked, n);
    forall i | 0 <= i < |r| ensures ranked[i] != w {
      assert ranked[i] == r[i];
    }
    forall t | t in r ensures Frequency(words)(t) >= Frequency(words)(w) {
      var i :| 0 <= i < |r| && r[i] == t;
      assert ranked[i] == t;
    }
  }

  /**
   * Ties keep first-occurrence order: the returned words of any one count are
   * a prefix of the words of that count in first-occurrence order.
   */
  lemma MostCommonTiesInFirstSeenOrder(words: seq<string>, n: nat, c: int)
    ensures WithKey(MostCommon(words, n), Frequency(words), c) <= WithKey(Dedup(words), Frequency(words), c)
  {
    var distinct := Dedup(words);
    var ranked := SortDesc(distinct, Frequency(words));
    SortDescStable(distinct, Frequency(words), c);
    var r := MostCommon(words, n);
    assert r == ranked[..|r|];
    WithKeyPrefix(ranked, |r|, Frequency(words), c);
  }

  /** `[word for word in words if word not in STOPWORDS and len(word) > 3]`. */
  function TagCandidates(words: seq<string>, stopwords: set<string>): (r: seq<string>)
    ensures forall w :: w in r <==> w in words && w !in stopwords && |w| > 3
  {
    if words == [] then []
    else
      (if words[0] !in stopwords && |words[0]| > 3 then [words[0]] else [])
      + TagCandidates(words[1..], stopwords)
  }

  /** `generate_tags` of the indexer script. */
  function GenerateTags(text: string, stopwords: set<string>, topN: nat): (r: seq<string>)
    ensures |r| <= topN && Distinct(r)
    ensures forall t :: t in r ==> t in WordTokens(Lower(text)) && t !in stopwords && |t| > 3
  {
    MostCommon(TagCandidates(WordTokens(Lower(text)), stopwords), topN)
  }

  /** The default `top_n` of the indexer's `generate_tags`. */
  const DefaultTopN: nat := 5

  /** A text with no usable word, the empty text among them, gets no tags. */
  lemma NoCandidatesNoTags(text: string, stopwords: set<string>, topN: nat)
    requires forall w :: w in WordTokens(Lower(text)) ==> w in stopwords || |w| <= 3
    ensures TagCandidates(WordTokens(Lower(text)), stopwords) == []
    ensures GenerateTags(text, stopwords, topN) == []
  {
    NoCandidates(WordTokens(Lower(text)), stopwords);
  }

  /** Words that are all stopwords or short leave no candidates. */
  lemma {:induction false} NoCandidates(words: seq<string>, stopwords: set<string>)
    requires forall w :: w in words ==> w in stopwords || |w| <= 3
    ensures TagCandidates(words, stopwords) == []
  {
    if words != [] {
      assert words[0] in words;
      assert forall w :: w in words[1..] ==> w in words;
      NoCandidates(words[1..], stopwords);
    }
  }

  /** The empty text has no words, so no tags. */
  lemma EmptyTextNoTags(stopwords: set<string>, topN: nat)
    ensures GenerateTags("", stopwords, topN) == []
  {
    assert Lower("") == "";
    RunsEmpty("", Word);
    NoCandidatesNoTags("", stopwords, topN);
  }

  /** Any word left out of the indexer's tags is no more frequent than every tag. */
  lemma GenerateTagsAreMostFrequent(text: string, stopwords: set<string>, topN: nat, w: string)
    requires w in WordTokens(Lower(text)) && w !in stopwords && |w| > 3
    requires w !in GenerateTags(text, stopwords, topN)
    ensures |GenerateTags(text, stopwords, topN)| == topN
    ensures var words := TagCandidates(WordTokens(Lower(text)), stopwords);
            forall t :: t in GenerateTags(text, stopwords, topN) ==> multiset(words)[t] >= multiset(words)[w]
  {
    MostCommonIsTop(TagCandidates(WordTokens(Lower(text)), stopwords), topN, w);
  }

  /** The NLTK parts the Qt app calls: the two tokenizers and the English stopword list. */
  datatype Nlp = Nlp(wordTokenize: string -> seq<string>,
                     sentTokenize: string -> seq<string>,
                     stopwords: set<string>)

  /** `word.isalpha()`: non-empty and made of letters only. */
  predicate IsAlphaWord(w: string) {
    w != [] && forall c :: c in w ==> IsAlpha(c)
  }

  /** `[word for word in words if word.isalpha() and word not in stop_words]`. */
  function AlphaNonStopwords(words: seq<string>, stopwords: set<string>): (r: seq<string>)
    ensures forall w :: w in r <==> w in words && IsAlphaWord(w) && w !in stopwords
  {
    if words == [] then []
    else
      (if IsAlphaWord(words[0]) && words[0] !in stopwords then [words[0]] else [])
      + AlphaNonStopwords(words[1..], stopwords)
  }

  /** How many frequent text words the Qt `generate_tags` keeps. */
  const QtTopN: nat := 5

  /** The frequent text words of the Qt `generate_tags`. */
  function TopTextWords(text: string, nlp: Nlp): (r: seq<string>)
    ensures |r| <= QtTopN && Distinct(r)
    ensures forall t :: t in r ==> t in nlp.wordTokenize(Lower(text)) && IsAlphaWord(t) && t !in nlp.stopwords
  {
    MostCommon(AlphaNonStopwords(nlp.wordTokenize(Lower(text)), nlp.stopwords), QtTopN)
  }

  /**
   * `generate_tags` of the Qt app: the five most common alphabetic non-stopword
   * tokens of the lowered text plus every `\w+` word of the lowered file name,
   * without repeats. (`list(set(tags))` has no defined order; this lists them
   * in first-seen order.)
   */
  function GenerateDocumentTags(text: string, filename: string, nlp: Nlp): (r: seq<string>)
    ensures Distinct(r)
    ensures forall t :: t in WordTokens(Lower(filename)) ==> t in r
    ensures forall t :: t in TopTextWords(text, nlp) ==> t in r
    ensures forall t :: t in r ==> t in WordTokens(Lower(filename)) || t in TopTextWords(text, nlp)
  {
    Dedup(TopTextWords(text, nlp) + WordTokens(Lower(filename)))
  }
}
