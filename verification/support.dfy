/**
 * The Tk support bot: fuzzy search over the indexed paragraphs with synonym
 * expansion, grouping of the results by file, the keyword spans it
 * highlights, and the bounded, duplicate-free search history.
 */
module Support {
  import opened Wrappers
  import opened Text
  import opened Collections
  import opened Grouping
  import opened Synonyms
  import opened Search

  /** One entry of the knowledge base, as written by the indexer. */
  datatype Entry = Entry(file: string, paragraph: string, tags: seq<string>)

  /** A search result: `(score, item)`. */
  datatype Scored = Scored(score: int, entry: Entry)

  /** A filter of `None`, `""` or "All" lets everything through. */
  predicate Inactive(filter: Option<string>) {
    filter.None? || filter.value == [] || filter.value == AnyFileType
  }

  /** The tag and file-type filters of `search_knowledge_base`. */
  predicate Admits(tag: Option<string>, fileType: Option<string>, e: Entry) {
    (Inactive(tag) || tag.value in e.tags) && (Inactive(fileType) || EndsWith(e.file, fileType.value))
  }

  /**
   * Inactive filters admit every entry, the two filters act independently,
   * and a tag literally named "All" filters nothing.
   */
  lemma AdmitsFilters(tag: Option<string>, fileType: Option<string>, e: Entry)
    ensures Inactive(tag) && Inactive(fileType) ==> Admits(tag, fileType, e)
    ensures Admits(tag, fileType, e) <==> Admits(tag, None, e) && Admits(None, fileType, e)
    ensures Admits(Some(AnyFileType), fileType, e) == Admits(None, fileType, e)
  {
  }

  /** `partial_ratio(word, paragraph.lower())`: the terms are compared as they are, the paragraph lowered. */
  function ParagraphScores(paragraph: string, ratio: Similarity): string -> int {
    w => ratio(w, Lower(paragraph))
  }

  /** `any(partial_ratio(word, para) >= threshold for word in terms)`. */
  predicate AnyAtLeast(terms: set<string>, score: string -> int, threshold: int) {
    exists t :: t in terms && score(t) >= threshold
  }

  /** Some term clears the threshold exactly when the best one does. */
  lemma AnyAtLeastIffBest(terms: set<string>, score: string -> int, threshold: int)
    ensures terms == {} ==> !AnyAtLeast(terms, score, threshold)
    ensures terms != {} ==> (AnyAtLeast(terms, score, threshold) <==> BestScore(terms, score) >= threshold)
  {
  }

  /** The unsorted results: each admitted entry with a term at or above the threshold, scored by its best term. */
  ghost function Matches(entries: seq<Entry>, terms: set<string>, tag: Option<string>, fileType: Option<string>,
                         ratio: Similarity, threshold: int): (r: seq<Scored>)
    ensures |r| <= |entries|
  {
    if entries == [] then []
    else
      var e := entries[|entries| - 1];
      var score := ParagraphScores(e.paragraph, ratio);
      Matches(entries[..|entries| - 1], terms, tag, fileType, ratio, threshold)
      + (if Admits(tag, fileType, e) && AnyAtLeast(terms, score, threshold)
         then [Scored(BestScore(terms, score), e)] else [])
  }

  /**
   * A result is exactly an admitted entry some term matches at or above the
   * threshold, scored with its best term's similarity.
   */
  lemma {:induction false} MatchesMembers(entries: seq<Entry>, terms: set<string>, tag: Option<string>,
                                          fileType: Option<string>, ratio: Similarity, threshold: int, x: Scored)
    ensures x in Matches(entries, terms, tag, fileType, ratio, threshold) <==>
            x.entry in entries && Admits(tag, fileType, x.entry)
            && AnyAtLeast(terms, ParagraphScores(x.entry.paragraph, ratio), threshold)
            && x.score == BestScore(terms, ParagraphScores(x.entry.paragraph, ratio))
  {
    if entries != [] {
      MatchesMembers(entries[..|entries| - 1], terms, tag, fileType, ratio, threshold, x);
      assert forall e :: e in entries <==> e in entries[..|entries| - 1] || e == entries[|entries| - 1];
    }
  }

  function ResultScore(x: Scored): int {
    x.score
  }

  /** `results.sort(reverse=True, key=score)` then `results[:max_results]`. */
  function Best(results: seq<Scored>, maxResults: int): seq<Scored> {
    PrefixSlice(SortDesc(results, ResultScore), maxResults)
  }

  /** The default `threshold` and `max_results` of `search_knowledge_base`. */
  const DefaultThreshold: int := 65
  const DefaultMaxResults: int := 10

  /** `search_knowledge_base`: the expanded query scored against every entry, sorted and cut. */
  method SearchKnowledgeBase(entries: seq<Entry>, syns: SynonymMap, ratio: Similarity, query: string,
                             tag: Option<string>, fileType: Option<string>, threshold: int, maxResults: int)
    returns (results: seq<Scored>)
    ensures results == Best(Matches(entries, Expansion(KeyOrMember, Tokens(Lower(query)), syns),
                                    tag, fileType, ratio, threshold), maxResults)
  {
    var terms := ExpandQuery(KeyOrMember, query, syns);
    var found: seq<Scored> := [];
    for i := 0 to |entries|
      invariant found == Matches(entries[..i], terms, tag, fileType, ratio, threshold)
    {
      var e := entries[i];
      assert entries[..i + 1][..i] == entries[..i];
      var score := ParagraphScores(e.paragraph, ratio);
      AnyAtLeastIffBest(terms, score, threshold);
      if Admits(tag, fileType, e) && terms != {} {
        var best := MaxScore(terms, score);
        if best >= threshold {
          found := found + [Scored(best, e)];
        }
      }
    }
    assert entries[..|entries|] == entries;
    results := Best(found, maxResults);
  }

  /**
   * The results: each one an admitted entry with a score at or above the
   * threshold that is its best term's similarity; by non-increasing score;
   * no more than `max_results`.
   */
  lemma SearchResults(entries: seq<Entry>, terms: set<string>, tag: Option<string>, fileType: Option<string>,
                      ratio: Similarity, threshold: int, maxResults: int)
    ensures var r := Best(Matches(entries, terms, tag, fileType, ratio, threshold), maxResults);
            && NonIncreasing(r, ResultScore)
            && (maxResults >= 0 ==> |r| <= maxResults)
            && forall x :: x in r ==>
                 x.entry in entries && Admits(tag, fileType, x.entry) && x.score >= threshold
                 && terms != {} && x.score == BestScore(terms, ParagraphScores(x.entry.paragraph, ratio))
  {
    var m := Matches(entries, terms, tag, fileType, ratio, threshold);
    var sorted := SortDesc(m, ResultScore);
    SortDescSorted(m, ResultScore);
    SortDescPerm(m, ResultScore);
    var r := Best(m, maxResults);
    assert r <= sorted;
    assert forall i :: 0 <= i < |r| ==> r[i] == sorted[i];
    forall x | x in r
      ensures x.entry in entries && Admits(tag, fileType, x.entry) && x.score >= threshold
              && terms != {} && x.score == BestScore(terms, ParagraphScores(x.entry.paragraph, ratio))
    {
      assert x in multiset(sorted);
      MatchedResult(entries, terms, tag, fileType, ratio, threshold, x);
    }
  }

  /** A scored entry among the matches passes the filters and reaches the threshold with its best term. */
  lemma MatchedResult(entries: seq<Entry>, terms: set<string>, tag: Option<string>, fileType: Option<string>,
                      ratio: Similarity, threshold: int, x: Scored)
    requires x in Matches(entries, terms, tag, fileType, ratio, threshold)
    ensures x.entry in entries && Admits(tag, fileType, x.entry) && x.score >= threshold
            && terms != {} && x.score == BestScore(terms, ParagraphScores(x.entry.paragraph, ratio))
  {
    MatchesMembers(entries, terms, tag, fileType, ratio, threshold, x);
    AnyAtLeastIffBest(terms, ParagraphScores(x.entry.paragraph, ratio), threshold);
  }

  /** What `send_message` lists under each file: the score and the sanitized paragraph. */
  function ResultShown(x: Scored): (int, string) {
    (x.score, Sanitize(x.entry.paragraph))
  }

  function ResultFile(x: Scored): string {
    x.entry.file
  }

  /** The grouping loop of `send_message`: results by file, in first-seen order, each group in rank order. */
  method GroupResults(results: seq<Scored>) returns (groups: Groups<(int, string)>)
    ensures GroupKeys(groups) == Dedup(MapSeq(results, ResultFile))
    ensures forall i :: 0 <= i < |groups| ==> groups[i].1 == MapSeq(WithKey(results, ResultFile, groups[i].0), ResultShown)
  {
    groups := GroupBy(results, ResultFile, ResultShown);
  }

  // ---- Keyword spans (`highlight_keywords`) ----

  /** A highlighted span `(start, end)` of the lowered text. */
  type Span = (int, int)

  /**
   * The spans one keyword gets: `find` from `start`, take the match, go on
   * after it, until `find` fails.
   */
  function Occurrences(text: string, kw: string, start: nat): (r: seq<Span>)
    requires kw != []
    ensures forall p :: p in r ==> start <= p.0 && p.1 == p.0 + |kw| && OccursAt(text, kw, p.0)
    decreases |text| - start
  {
    var i := Find(text, kw, start);
    if i < 0 then [] else [(i, i + |kw|)] + Occurrences(text, kw, i + |kw|)
  }

  /** Each span ends before the next one begins. */
  predicate Disjoint(r: seq<Span>) {
    forall i, j :: 0 <= i < j < |r| ==> r[i].1 <= r[j].0
  }

  /** The spans of one keyword follow each other without overlapping. */
  lemma {:induction false} OccurrencesDisjoint(text: string, kw: string, start: nat)
    requires kw != []
    ensures Disjoint(Occurrences(text, kw, start))
    decreases |text| - start
  {
    var i := Find(text, kw, start);
    if i >= 0 {
      var rest := Occurrences(text, kw, i + |kw|);
      OccurrencesDisjoint(text, kw, i + |kw|);
      var r := Occurrences(text, kw, start);
      assert r == [(i, i + |kw|)] + rest;
      forall a, b | 0 <= a < b < |r| ensures r[a].1 <= r[b].0 {
        var q := rest[b - 1];
        assert r[b] == q;
        if a > 0 {
          assert r[a] == rest[a - 1];
        } else {
          assert q in rest;
          assert i + |kw| <= q.0;
        }
      }
    }
  }

  /**
   * The scan misses no occurrence: every place at or after `start` where the
   * keyword occurs lies inside one of the spans (an occurrence that overlaps
   * an earlier span is covered by it).
   */
  lemma {:induction false} OccurrencesCover(text: string, kw: string, start: nat, j: int)
    requires kw != [] && start <= j && OccursAt(text, kw, j)
    ensures exists p :: p in Occurrences(text, kw, start) && p.0 <= j < p.1
    decreases |text| - start
  {
    var i := Find(text, kw, start);
    FindFirst(text, kw, start, j);
    var rest := Occurrences(text, kw, i + |kw|);
    var r := Occurrences(text, kw, start);
    assert r == [(i, i + |kw|)] + rest;
    if j >= i + |kw| {
      OccurrencesCover(text, kw, i + |kw|, j);
      var p :| p in rest && p.0 <= j < p.1;
      assert p in r;
    } else {
      var p := (i, i + |kw|);
      assert r[0] == p && p.0 <= j < p.1;
      assert p in r;
    }
  }

  predicate NoEmptyKeyword(keywords: seq<string>) {
    forall i :: 0 <= i < |keywords| ==> keywords[i] != []
  }

  /** The spans of all keywords, keyword by keyword. */
  function AllOccurrences(text: string, keywords: seq<string>): seq<Span>
    requires NoEmptyKeyword(keywords)
  {
    if keywords == [] then []
    else
      var kw := keywords[|keywords| - 1];
      AllOccurrences(text, keywords[..|keywords| - 1]) + Occurrences(text, kw, 0)
  }

  /** `(a, b) <= (c, d)` on tuples. */
  predicate SpanLeq(x: Span, y: Span) {
    x.0 < y.0 || (x.0 == y.0 && x.1 <= y.1)
  }

  predicate SpansSorted(s: seq<Span>) {
    forall i, j :: 0 <= i < j < |s| ==> SpanLeq(s[i], s[j])
  }

  function InsertSpan(x: Span, s: seq<Span>): (r: seq<Span>)
    ensures |r| == |s| + 1
    ensures r[0] == x || (s != [] && r[0] == s[0])
  {
    if s == [] || SpanLeq(x, s[0]) then [x] + s
    else [s[0]] + InsertSpan(x, s[1..])
  }

  /** Inserting adds `x` and loses nothing. */
  lemma {:induction false} InsertSpanPerm(x: Span, s: seq<Span>)
    ensures multiset(InsertSpan(x, s)) == multiset(s) + multiset{x}
  {
    if s != [] && !SpanLeq(x, s[0]) {
      InsertSpanPerm(x, s[1..]);
      assert s == [s[0]] + s[1..];
    }
  }

  /** `matches.sort()`. */
  function SortSpans(s: seq<Span>): (r: seq<Span>)
    ensures |r| == |s|
  {
    if s == [] then [] else InsertSpan(s[0], SortSpans(s[1..]))
  }

  /** Sorting is a permutation. */
  lemma {:induction false} SortSpansPerm(s: seq<Span>)
    ensures multiset(SortSpans(s)) == multiset(s)
  {
    if s != [] {
      SortSpansPerm(s[1..]);
      InsertSpanPerm(s[0], SortSpans(s[1..]));
      assert s == [s[0]] + s[1..];
    }
  }

  lemma {:induction false} InsertSpanSorted(x: Span, s: seq<Span>)
    requires SpansSorted(s)
    ensures SpansSorted(InsertSpan(x, s))
  {
    var r := InsertSpan(x, s);
    if s == [] || SpanLeq(x, s[0]) {
      forall i, j | 0 <= i < j < |r| ensures SpanLeq(r[i], r[j]) {
        if i == 0 {
          assert r[j] == s[j - 1];
          assert j == 1 || SpanLeq(s[0], s[j - 1]);
        } else {
          assert r[i] == s[i - 1] && r[j] == s[j - 1];
        }
      }
    } else {
      var rest := s[1..];
      assert SpansSorted(rest) by {
        forall i, j | 0 <= i < j < |rest| ensures SpanLeq(rest[i], rest[j]) {
          assert rest[i] == s[i + 1] && rest[j] == s[j + 1];
        }
      }
      InsertSpanSorted(x, rest);
      var t := InsertSpan(x, rest);
      assert SpanLeq(s[0], t[0]) by {
        if t[0] != x {
          assert t[0] == rest[0] == s[1];
        }
      }
      assert r == [s[0]] + t;
      forall i, j | 0 <= i < j < |r| ensures SpanLeq(r[i], r[j]) {
        if i == 0 {
          assert r[j] == t[j - 1];
          assert j - 1 == 0 || SpanLeq(t[0], t[j - 1]);
        } else {
          assert r[i] == t[i - 1] && r[j] == t[j - 1];
        }
      }
    }
  }

  lemma {:induction false} SortSpansSorted(s: seq<Span>)
    ensures SpansSorted(SortSpans(s))
  {
    if s != [] {
      SortSpansSorted(s[1..]);
      InsertSpanSorted(s[0], SortSpans(s[1..]));
    }
  }

  /**
   * The match collection of `highlight_keywords`: every span of every keyword
   * in the lowered text, sorted. A keyword that is empty would make the scan
   * loop forever (`find` of the empty text always succeeds where it starts),
   * so every keyword must be non-empty.
   */
  method CollectMatches(text: string, keywords: seq<string>) returns (matches: seq<Span>)
    requires NoEmptyKeyword(keywords)
    ensures matches == SortSpans(AllOccurrences(Lower(text), keywords))
  {
    var lowerText := Lower(text);
    matches := [];
    for k := 0 to |keywords|
      invariant matches == AllOccurrences(lowerText, keywords[..k])
    {
      assert keywords[..k + 1][..k] == keywords[..k];
      matches := ScanKeyword(lowerText, keywords[k], matches);
    }
    assert keywords[..|keywords|] == keywords;
    matches := SortSpans(matches);
  }

  /** The `while True` scan of one keyword, appending its spans to `before`. */
  method ScanKeyword(text: string, kw: string, before: seq<Span>) returns (matches: seq<Span>)
    requires kw != []
    ensures matches == before + Occurrences(text, kw, 0)
  {
    var start := 0;
    matches := before;
    while true
      invariant 0 <= start
      invariant before + Occurrences(text, kw, 0) == matches + Occurrences(text, kw, start)
      decreases |text| - start
    {
      var idx := Find(text, kw, start);
      if idx == -1 {
        assert matches + Occurrences(text, kw, start) == matches;
        break;
      }
      var span := (idx, idx + |kw|);
      var rest := Occurrences(text, kw, idx + |kw|);
      assert Occurrences(text, kw, start) == [span] + rest;
      ConcatAssoc(matches, [span], rest);
      matches := matches + [span];
      start := idx + |kw|;
    }
  }

  /** Each collected span is an occurrence of one of the keywords in the lowered text. */
  lemma CollectedSpansSound(text: string, keywords: seq<string>, p: Span)
    requires NoEmptyKeyword(keywords)
    requires p in SortSpans(AllOccurrences(Lower(text), keywords))
    ensures exists kw :: kw in keywords && p.1 == p.0 + |kw| && OccursAt(Lower(text), kw, p.0)
  {
    var all := AllOccurrences(Lower(text), keywords);
    SortSpansPerm(all);
    assert p in multiset(SortSpans(all));
    assert p in all;
    AllOccurrencesSound(Lower(text), keywords, p);
    var i :| 0 <= i < |keywords| && p in Occurrences(Lower(text), keywords[i], 0);
    assert keywords[i] in keywords;
  }

  /** Every occurrence of a keyword in the lowered text lies inside a collected span. */
  lemma CollectedSpansCover(text: string, keywords: seq<string>, kw: string, j: int)
    requires NoEmptyKeyword(keywords)
    requires kw in keywords && OccursAt(Lower(text), kw, j)
    ensures exists p :: p in SortSpans(AllOccurrences(Lower(text), keywords)) && p.0 <= j < p.1
  {
    var all := AllOccurrences(Lower(text), keywords);
    var i :| 0 <= i < |keywords| && keywords[i] == kw;
    OccurrencesCover(Lower(text), kw, 0, j);
    var p :| p in Occurrences(Lower(text), kw, 0) && p.0 <= j < p.1;
    AllOccurrencesComplete(Lower(text), keywords, i, p);
    SortSpansPerm(all);
    assert p in multiset(SortSpans(all));
  }

  /** The collected spans are sorted. */
  lemma CollectedSpansSorted(text: string, keywords: seq<string>)
    requires NoEmptyKeyword(keywords)
    ensures SpansSorted(SortSpans(AllOccurrences(Lower(text), keywords)))
  {
    SortSpansSorted(AllOccurrences(Lower(text), keywords));
  }

  /** Every collected span is a span of one of the keywords. */
  lemma {:induction false} AllOccurrencesSound(text: string, keywords: seq<string>, p: Span)
    requires NoEmptyKeyword(keywords) && p in AllOccurrences(text, keywords)
    ensures exists i :: 0 <= i < |keywords| && p in Occurrences(text, keywords[i], 0)
  {
    var n := |keywords| - 1;
    var init := keywords[..n];
    assert forall i :: 0 <= i < n ==> init[i] == keywords[i];
    if p in AllOccurrences(text, init) {
      AllOccurrencesSound(text, init, p);
      var i :| 0 <= i < n && p in Occurrences(text, init[i], 0);
      assert keywords[i] == init[i];
    } else {
      assert p in Occurrences(text, keywords[n], 0);
    }
  }

  /** Every span of every keyword is collected. */
  lemma {:induction false} AllOccurrencesComplete(text: string, keywords: seq<string>, i: int, p: Span)
    requires NoEmptyKeyword(keywords) && 0 <= i < |keywords|
    requires p in Occurrences(text, keywords[i], 0)
    ensures p in AllOccurrences(text, keywords)
  {
    var n := |keywords| - 1;
    var init := keywords[..n];
    assert NoEmptyKeyword(init) by {
      assert forall k :: 0 <= k < n ==> init[k] == keywords[k];
    }
    var before := AllOccurrences(text, init);
    var last := Occurrences(text, keywords[n], 0);
    assert AllOccurrences(text, keywords) == before + last;
    if i < n {
      assert init[i] == keywords[i];
      AllOccurrencesComplete(text, init, i, p);
      assert p in before;
    } else {
      assert p in last;
    }
  }

  // ---- Search history (`add_to_history`) ----

  /** `MAX_HISTORY`. */
  const MaxHistory: nat := 20

  /** The history after one more query. */
  function Pushed(history: seq<string>, query: string): seq<string> {
    if query in history then history
    else if |history| + 1 > MaxHistory then ([query] + history)[..MaxHistory]
    else [query] + history
  }

  /**
   * A query already there leaves the history alone; a new one goes to the
   * front, followed by the older ones in order, the oldest dropped past 20.
   * The history stays duplicate-free and at most 20 long.
   */
  lemma PushedProperties(history: seq<string>, query: string)
    requires Distinct(history) && |history| <= MaxHistory
    ensures var h := Pushed(history, query);
            && Distinct(h) && |h| <= MaxHistory && query in h
            && (query in history ==> h == history)
            && (query !in history ==> h[0] == query && h[1..] <= history
                                      && |h| == if |history| < MaxHistory then |history| + 1 else MaxHistory)
  {
    var h := Pushed(history, query);
    if query !in history {
      var full := [query] + history;
      assert Distinct(full) by {
        forall i, j | 0 <= i < j < |full| ensures full[i] != full[j] {
          if i == 0 {
            assert full[j] == history[j - 1];
          } else {
            assert full[i] == history[i - 1] && full[j] == history[j - 1];
          }
        }
      }
      assert h == full[..|h|];
      assert h[1..] == history[..|h| - 1];
      assert h[0] == query;
      forall i, j | 0 <= i < j < |h| ensures h[i] != h[j] {
        assert h[i] == full[i] && h[j] == full[j];
      }
    }
  }

  /** The global `history` list of the Tk bot. */
  class SearchHistory {
    var entries: seq<string>

    ghost predicate Valid()
      reads this
    {
      Distinct(entries) && |entries| <= MaxHistory
    }

    constructor ()
      ensures entries == [] && Valid()
    {
      entries := [];
    }

    /** `add_to_history`: `insert(0, query)` when new, then `pop()` past the limit. */
    method Add(query: string)
      requires Valid()
      modifies this
      ensures entries == Pushed(old(entries), query)
      ensures Valid()
    {
      PushedProperties(entries, query);
      if query !in entries {
        entries := [query] + entries;
        if |entries| > MaxHistory {
          entries := entries[..|entries| - 1];
        }
      }
    }
  }

  /**
   * `list(expanded)`: the expansion set laid out as a list, each word once, in
   * an order the model leaves open.
   */
  method ListOf(words: set<string>) returns (r: seq<string>)
    ensures Distinct(r)
    ensures forall w :: w in r <==> w in words
  {
    r := [];
    var rest := words;
    while rest != {}
      invariant rest <= words && Distinct(r)
      invariant forall w :: w in r <==> w in words - rest
      decreases rest
    {
      var w :| w in rest;
      assert w !in r;
      forall i, j | 0 <= i < j < |r| + 1 ensures (r + [w])[i] != (r + [w])[j] {
        if j == |r| {
          assert r[i] in r;
        }
      }
      r := r + [w];
      rest := rest - {w};
    }
  }

  /** `highlight_keywords` for each paragraph of one file's group, in order. */
  method HighlightParagraphs(paras: seq<(int, string)>, keywords: seq<string>) returns (marks: seq<seq<Span>>)
    requires NoEmptyKeyword(keywords)
    ensures |marks| == |paras|
    ensures forall j :: 0 <= j < |paras| ==> marks[j] == SortSpans(AllOccurrences(Lower(paras[j].1), keywords))
  {
    marks := [];
    for j := 0 to |paras|
      invariant |marks| == j
      invariant forall k :: 0 <= k < j ==> marks[k] == SortSpans(AllOccurrences(Lower(paras[k].1), keywords))
    {
      var spans := CollectMatches(paras[j].1, keywords);
      marks := marks + [spans];
    }
  }

  /** The rendering loop of `send_message`: every shown paragraph of every group is highlighted. */
  method HighlightGroups(groups: Groups<(int, string)>, keywords: seq<string>) returns (marks: seq<seq<seq<Span>>>)
    requires NoEmptyKeyword(keywords)
    ensures |marks| == |groups|
    ensures forall i :: 0 <= i < |groups| ==> |marks[i]| == |groups[i].1|
    ensures forall i, j :: 0 <= i < |groups| && 0 <= j < |groups[i].1| ==>
              marks[i][j] == SortSpans(AllOccurrences(Lower(groups[i].1[j].1), keywords))
  {
    marks := [];
    for i := 0 to |groups|
      invariant |marks| == i
      invariant forall k :: 0 <= k < i ==> |marks[k]| == |groups[k].1|
      invariant forall k, j :: 0 <= k < i && 0 <= j < |groups[k].1| ==>
                  marks[k][j] == SortSpans(AllOccurrences(Lower(groups[k].1[j].1), keywords))
    {
      var m := HighlightParagraphs(groups[i].1, keywords);
      marks := marks + [m];
    }
  }

  /** What `send_message` shows. */
  datatype Reply =
    | Ignored                                   // blank input: nothing happens
    | NothingFound                              // the "couldn't find anything" message
    | Hangs                                     // `highlight_keywords` never returns: the empty word is a keyword
    | Found(groups: Groups<(int, string)>, keywords: seq<string>, marks: seq<seq<seq<Span>>>)

  /**
   * `send_message`: a blank input is ignored; otherwise the knowledge base is
   * searched with the default threshold and limit, the results are grouped by
   * file, every shown paragraph is highlighted with the expanded query, and
   * the input goes into the history. When the empty word is among the
   * expanded terms, `find("", start)` keeps returning `start` and the first
   * highlight never ends, so the history is never reached.
   */
  method SendMessage(history: SearchHistory, entries: seq<Entry>, syns: SynonymMap, ratio: Similarity,
                     input: string, tag: string, fileType: string)
    returns (reply: Reply)
    requires history.Valid()
    modifies history
    ensures history.Valid()
    ensures Strip(input) == [] ==> reply == Ignored && history.entries == old(history.entries)
    ensures reply == Hangs ==> history.entries == old(history.entries)
    ensures Strip(input) != [] && reply != Hangs ==> history.entries == Pushed(old(history.entries), input)
    ensures Strip(input) != [] ==>
              var terms := Expansion(KeyOrMember, Tokens(Lower(input)), syns);
              var results := Best(Matches(entries, terms, Some(tag), Some(fileType), ratio, DefaultThreshold),
                                  DefaultMaxResults);
              (results == [] ==> reply == NothingFound)
              && (results != [] && [] in terms ==> reply == Hangs)
              && (results != [] && [] !in terms ==>
                    && reply.Found? && GroupKeys(reply.groups) == Dedup(MapSeq(results, ResultFile))
                    && (forall i :: 0 <= i < |reply.groups| ==>
                          reply.groups[i].1 == MapSeq(WithKey(results, ResultFile, reply.groups[i].0), ResultShown))
                    && (forall w :: w in reply.keywords <==> w in terms)
                    && |reply.marks| == |reply.groups|
                    && (forall i :: 0 <= i < |reply.groups| ==> |reply.marks[i]| == |reply.groups[i].1|)
                    && (forall i, j :: 0 <= i < |reply.groups| && 0 <= j < |reply.groups[i].1| ==>
                          reply.marks[i][j] == SortSpans(AllOccurrences(Lower(reply.groups[i].1[j].1), reply.keywords))))
  {
    if Strip(input) == [] {
      return Ignored;
    }
    var results := SearchKnowledgeBase(entries, syns, ratio, input, Some(tag), Some(fileType),
                                       DefaultThreshold, DefaultMaxResults);
    if results == [] {
      reply := NothingFound;
    } else {
      var groups := GroupResults(results);
      var expanded := ExpandQuery(KeyOrMember, input, syns);
      var keywords := ListOf(expanded);
      if [] in keywords {
        return Hangs;
      }
      var marks := HighlightGroups(groups, keywords);
      reply := Found(groups, keywords, marks);
    }
    history.Add(input);
  }
}
