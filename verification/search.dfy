/**
 * The search of the Qt app over its paragraph records: the tag and file-type
 * filters, regex mode (one hit per matching line), fuzzy mode (one hit per
 * record whose best term similarity is above 70), ranking by score and
 * grouping by file name. Regex matching and `fuzz.partial_ratio` are
 * parameters: a line predicate and a similarity function into 0..100.
 */
module Search {
  import opened Wrappers
  import opened Text
  import opened Collections
  import opened Grouping

  /** One paragraph row of the records table. */
  datatype Record = Record(filename: string, filetype: string, text: string,
                           tags: seq<string>, imagePaths: seq<string>)

  /** One search result before rendering. */
  datatype Hit = Hit(filename: string, matchedText: string, lineNumber: Option<nat>,
                     tags: seq<string>, score: int, imagePaths: seq<string>)

  /** The two combo boxes: a file type or "All", and a tag or the empty text. */
  datatype Filters = Filters(filetype: string, tag: string)

  const AnyFileType: string := "All"

  /** A record is scanned when both filters let it through. */
  predicate Passes(f: Filters, r: Record) {
    (f.filetype == AnyFileType || r.filetype == f.filetype) && (f.tag == [] || f.tag in r.tags)
  }

  /**
   * "All" with no tag lets every record through, and a record passes both
   * filters exactly when it passes each of them on its own.
   */
  lemma PassesFilters(f: Filters, r: Record)
    ensures Passes(Filters(AnyFileType, []), r)
    ensures Passes(f, r) <==> Passes(Filters(f.filetype, []), r) && Passes(Filters(AnyFileType, f.tag), r)
  {
  }

  type Percent = x: int | 0 <= x <= 100

  /** `fuzz.partial_ratio`. */
  type Similarity = (string, string) -> Percent

  /** A compiled pattern: does `pattern.search(line)` find a match? */
  type LinePattern = string -> bool

  /** The lines regex mode scans: `doc['text'].split('\n')`. */
  function Lines(r: Record): (lines: seq<string>)
    ensures |lines| >= 1
  {
    Split(r.text, "\n")
  }

  const RegexScore: int := 100

  /** The hit for line number `n` (counting from 1) of a record. */
  function LineHit(r: Record, line: string, n: nat): Hit {
    Hit(r.filename, line, Some(n), r.tags, RegexScore, r.imagePaths)
  }

  /** The hits of the matching lines among `lines`, numbered from 1. */
  function NumberedHits(r: Record, lines: seq<string>, p: LinePattern): (hits: seq<Hit>)
    ensures |hits| <= |lines|
  {
    if lines == [] then []
    else
      var n := |lines|;
      NumberedHits(r, lines[..n - 1], p) + (if p(lines[n - 1]) then [LineHit(r, lines[n - 1], n)] else [])
  }

  /** `h` is the hit of line `n` (counting from 1) of `lines`, and that line matches. */
  predicate IsLineHit(h: Hit, r: Record, lines: seq<string>, n: int, p: LinePattern) {
    1 <= n <= |lines| && p(lines[n - 1]) && h == LineHit(r, lines[n - 1], n)
  }

  lemma {:induction false} NumberedHitsMembers(r: Record, lines: seq<string>, p: LinePattern, h: Hit)
    ensures h in NumberedHits(r, lines, p) <==> exists n :: IsLineHit(h, r, lines, n, p)
  {
    if lines != [] {
      var init := lines[..|lines| - 1];
      NumberedHitsMembers(r, init, p, h);
      if h in NumberedHits(r, init, p) {
        var n :| IsLineHit(h, r, init, n, p);
        assert lines[n - 1] == init[n - 1];
        assert IsLineHit(h, r, lines, n, p);
      } else if h in NumberedHits(r, lines, p) {
        assert IsLineHit(h, r, lines, |lines|, p);
      }
      if exists n :: IsLineHit(h, r, lines, n, p) {
        var n :| IsLineHit(h, r, lines, n, p);
        if n < |lines| {
          assert init[n - 1] == lines[n - 1];
          assert IsLineHit(h, r, init, n, p);
        } else {
          assert NumberedHits(r, lines, p) == NumberedHits(r, init, p) + [h];
        }
      }
    }
  }

  /** The regex hits of one record. */
  function RecordLineHits(r: Record, p: LinePattern): seq<Hit> {
    NumberedHits(r, Lines(r), p)
  }

  /** Regex mode: every matching line of every record that passes the filters, in table and line order. */
  function RegexHits(records: seq<Record>, f: Filters, p: LinePattern): seq<Hit> {
    if records == [] then []
    else
      var r := records[|records| - 1];
      RegexHits(records[..|records| - 1], f, p) + (if Passes(f, r) then RecordLineHits(r, p) else [])
  }

  /**
   * A regex hit is exactly a matching line of a record that passes the
   * filters: it carries that record's file name, tags and images, the line
   * itself, its number counting from 1, and score 100.
   */
  lemma {:induction false} RegexHitsMembers(records: seq<Record>, f: Filters, p: LinePattern, h: Hit)
    ensures h in RegexHits(records, f, p) <==>
            exists r, n :: r in records && Passes(f, r) && IsLineHit(h, r, Lines(r), n, p)
  {
    if records != [] {
      var init := records[..|records| - 1];
      var last := records[|records| - 1];
      RegexHitsMembers(init, f, p, h);
      NumberedHitsMembers(last, Lines(last), p, h);
      assert forall r :: r in records <==> r in init || r == last;
      if h in RegexHits(records, f, p) {
        if h in RegexHits(init, f, p) {
          var r, n :| r in init && Passes(f, r) && IsLineHit(h, r, Lines(r), n, p);
          assert r in records;
        } else {
          var n :| IsLineHit(h, last, Lines(last), n, p);
          assert last in records;
        }
      }
      if exists r, n :: r in records && Passes(f, r) && IsLineHit(h, r, Lines(r), n, p) {
        var r, n :| r in records && Passes(f, r) && IsLineHit(h, r, Lines(r), n, p);
        if r in init {
          assert h in RegexHits(init, f, p);
        } else {
          assert h in NumberedHits(last, Lines(last), p);
        }
      }
    }
  }

  /** Every regex hit scores 100 and names a line, counting from 1, of the record it came from. */
  lemma RegexHitShape(records: seq<Record>, f: Filters, p: LinePattern, h: Hit)
    requires h in RegexHits(records, f, p)
    ensures h.score == RegexScore && h.lineNumber.Some? && h.lineNumber.value >= 1
    ensures exists r :: r in records && Passes(f, r) && h.filename == r.filename && h.tags == r.tags
                        && h.imagePaths == r.imagePaths && h.lineNumber.value <= |Lines(r)|
                        && h.matchedText == Lines(r)[h.lineNumber.value - 1] && p(h.matchedText)
  {
    RegexHitsMembers(records, f, p, h);
  }

  /** The images of a run of hits: `image_paths.update(doc['image_paths'])` for each hit. */
  function ImagesOf(hits: seq<Hit>): set<string> {
    if hits == [] then {} else ImagesOf(hits[..|hits| - 1]) + PathSet(hits[|hits| - 1].imagePaths)
  }

  function PathSet(paths: seq<string>): set<string> {
    set x | x in paths
  }

  lemma {:induction false} ImagesOfAppend(a: seq<Hit>, b: seq<Hit>)
    ensures ImagesOf(a + b) == ImagesOf(a) + ImagesOf(b)
    decreases |b|
  {
    if b == [] {
      assert a + b == a;
    } else {
      assert (a + b)[..|a + b| - 1] == a + b[..|b| - 1];
      ImagesOfAppend(a, b[..|b| - 1]);
    }
  }

  /** The images shown are exactly those of the hits. */
  lemma {:induction false} ImagesOfMembers(hits: seq<Hit>, x: string)
    ensures x in ImagesOf(hits) <==> exists h :: h in hits && x in h.imagePaths
  {
    if hits != [] {
      ImagesOfMembers(hits[..|hits| - 1], x);
      assert forall h :: h in hits <==> h in hits[..|hits| - 1] || h == hits[|hits| - 1];
    }
  }

  /** The regex scan: the nested loops over the table and over each record's lines. */
  method RegexScan(records: seq<Record>, f: Filters, p: LinePattern) returns (hits: seq<Hit>, images: set<string>)
    ensures hits == RegexHits(records, f, p)
    ensures images == ImagesOf(hits)
  {
    hits, images := [], {};
    for i := 0 to |records|
      invariant hits == RegexHits(records[..i], f, p)
      invariant images == ImagesOf(hits)
    {
      var r := records[i];
      assert records[..i + 1][..i] == records[..i];
      if Passes(f, r) {
        hits, images := ScanLines(r, p, hits, images);
      }
    }
    assert records[..|records|] == records;
  }

  /** The inner loop over one record's lines, appending its hits and their images. */
  method ScanLines(r: Record, p: LinePattern, hits0: seq<Hit>, images0: set<string>) returns (hits: seq<Hit>, images: set<string>)
    requires images0 == ImagesOf(hits0)
    ensures hits == hits0 + RecordLineHits(r, p)
    ensures images == ImagesOf(hits)
  {
    var lines := Lines(r);
    hits, images := hits0, images0;
    for j := 0 to |lines|
      invariant hits == hits0 + NumberedHits(r, lines[..j], p)
      invariant images == ImagesOf(hits)
    {
      NumberedHitsStep(r, lines, j, p);
      if p(lines[j]) {
        var hit := LineHit(r, lines[j], j + 1);
        ImagesOfSnoc(hits, hit);
        ConcatAssoc(hits0, NumberedHits(r, lines[..j], p), [hit]);
        hits := hits + [hit];
        images := images + PathSet(r.imagePaths);
      }
    }
    assert lines[..|lines|] == lines;
  }

  /** One more line adds its hit when it matches. */
  lemma NumberedHitsStep(r: Record, lines: seq<string>, j: nat, p: LinePattern)
    requires j < |lines|
    ensures NumberedHits(r, lines[..j + 1], p)
            == NumberedHits(r, lines[..j], p) + (if p(lines[j]) then [LineHit(r, lines[j], j + 1)] else [])
  {
    var prefix := lines[..j + 1];
    assert prefix[..|prefix| - 1] == lines[..j] && prefix[|prefix| - 1] == lines[j];
  }

  lemma ImagesOfSnoc(hits: seq<Hit>, hit: Hit)
    ensures ImagesOf(hits + [hit]) == ImagesOf(hits) + PathSet(hit.imagePaths)
  {
    assert (hits + [hit])[..|hits|] == hits;
  }

  /** The Qt app's similarity of each term to a text: `partial_ratio(word.lower(), text.lower())`. */
  function TermScores(text: string, ratio: Similarity): string -> int {
    t => ratio(Lower(t), Lower(text))
  }

  /** `max(score(t) for t in terms)`. */
  ghost function BestScore(terms: set<string>, score: string -> int): (s: int)
    requires terms != {}
    ensures exists t :: t in terms && s == score(t)
    ensures forall t :: t in terms ==> score(t) <= s
    decreases terms
  {
    var t :| t in terms;
    if terms == {t} then score(t)
    else
      var rest := BestScore(terms - {t}, score);
      if score(t) >= rest then score(t) else rest
  }

  /** A maximum is unique: anything reached by a term and bounding all terms is `BestScore`. */
  lemma BestScoreUnique(terms: set<string>, score: string -> int, s: int)
    requires terms != {}
    requires exists t :: t in terms && s == score(t)
    requires forall t :: t in terms ==> score(t) <= s
    ensures s == BestScore(terms, score)
  {
    var b := BestScore(terms, score);
    var t :| t in terms && s == score(t);
    var u :| u in terms && b == score(u);
    assert s >= b && b >= s;
  }

  /** The loop behind `max(...)`: the best score over all terms. */
  method MaxScore(terms: set<string>, score: string -> int) returns (best: int)
    requires terms != {}
    ensures best == BestScore(terms, score)
  {
    var t0 :| t0 in terms;
    best := score(t0);
    var remaining := terms - {t0};
    ghost var seen := {t0};
    while remaining != {}
      invariant seen + remaining == terms
      invariant exists t :: t in seen && best == score(t)
      invariant forall t :: t in seen ==> score(t) <= best
      decreases remaining
    {
      var t :| t in remaining;
      if score(t) > best {
        best := score(t);
      }
      remaining := remaining - {t};
      seen := seen + {t};
    }
    BestScoreUnique(terms, score, best);
  }

  /** A fuzzy hit must score strictly above this. */
  const FuzzyCutoff: int := 70

  /** The fuzzy hit of a whole record: its text, no line number, the given score. */
  function FuzzyHit(r: Record, score: int): Hit {
    Hit(r.filename, r.text, None, r.tags, score, r.imagePaths)
  }

  /** Fuzzy mode: one hit per record that passes the filters and whose best similarity is above 70. */
  ghost function FuzzyHits(records: seq<Record>, f: Filters, terms: set<string>, ratio: Similarity): (hits: seq<Hit>)
    requires terms != {}
    ensures |hits| <= |records|
  {
    if records == [] then []
    else
      var r := records[|records| - 1];
      var score := BestScore(terms, TermScores(r.text, ratio));
      FuzzyHits(records[..|records| - 1], f, terms, ratio)
      + (if Passes(f, r) && score > FuzzyCutoff then [FuzzyHit(r, score)] else [])
  }

  /**
   * A fuzzy hit is exactly the hit of a record that passes the filters and
   * whose best similarity is above 70, scored with that similarity, with no
   * line number.
   */
  lemma {:induction false} FuzzyHitsMembers(records: seq<Record>, f: Filters, terms: set<string>, ratio: Similarity, h: Hit)
    requires terms != {}
    ensures h in FuzzyHits(records, f, terms, ratio) <==>
            exists r :: r in records && Passes(f, r) && BestScore(terms, TermScores(r.text, ratio)) > FuzzyCutoff
                        && h == FuzzyHit(r, BestScore(terms, TermScores(r.text, ratio)))
  {
    if records != [] {
      FuzzyHitsMembers(records[..|records| - 1], f, terms, ratio, h);
      assert forall r :: r in records <==> r in records[..|records| - 1] || r == records[|records| - 1];
    }
  }

  /** The fuzzy scan: one pass over the table. */
  method FuzzyScan(records: seq<Record>, f: Filters, terms: set<string>, ratio: Similarity)
    returns (hits: seq<Hit>, images: set<string>)
    requires terms != {}
    ensures hits == FuzzyHits(records, f, terms, ratio)
    ensures images == ImagesOf(hits)
  {
    hits, images := [], {};
    for i := 0 to |records|
      invariant hits == FuzzyHits(records[..i], f, terms, ratio)
      invariant images == ImagesOf(hits)
    {
      var r := records[i];
      assert records[..i + 1][..i] == records[..i];
      if Passes(f, r) {
        hits, images := ScoreRecord(r, terms, ratio, hits, images);
      }
    }
    assert records[..|records|] == records;
  }

  /** One record of the fuzzy scan: a hit when its best term score beats the cutoff. */
  method ScoreRecord(r: Record, terms: set<string>, ratio: Similarity, hits0: seq<Hit>, images0: set<string>)
    returns (hits: seq<Hit>, images: set<string>)
    requires terms != {} && images0 == ImagesOf(hits0)
    ensures var score := BestScore(terms, TermScores(r.text, ratio));
            hits == hits0 + (if score > FuzzyCutoff then [FuzzyHit(r, score)] else [])
    ensures images == ImagesOf(hits)
  {
    hits, images := hits0, images0;
    var score := MaxScore(terms, TermScores(r.text, ratio));
    if score > FuzzyCutoff {
      var hit := FuzzyHit(r, score);
      ImagesOfAppend(hits, [hit]);
      assert ImagesOf([hit]) == PathSet(hit.imagePaths) by {
        assert [hit][..0] == [];
      }
      hits := hits + [hit];
      images := images + PathSet(r.imagePaths);
    }
  }

  function HitScore(h: Hit): int {
    h.score
  }

  /** How many hits the Qt app shows. */
  const MaxShown: nat := 10

  /** `sorted(results, key=score, reverse=True)[:10]`. */
  function Rank(hits: seq<Hit>): (r: seq<Hit>)
    ensures |r| == if |hits| < MaxShown then |hits| else MaxShown
  {
    var sorted := SortDesc(hits, HitScore);
    PrefixSlice(sorted, MaxShown)
  }

  /** The ranked hits come by non-increasing score. */
  lemma RankOrdered(hits: seq<Hit>)
    ensures NonIncreasing(Rank(hits), HitScore)
  {
    var sorted := SortDesc(hits, HitScore);
    SortDescSorted(hits, HitScore);
    assert Rank(hits) == sorted[..|Rank(hits)|];
  }

  /** The ranked hits are the best ones: they and the hits left out make up all hits, and none left out scores higher. */
  lemma RankKeepsBest(hits: seq<Hit>)
    ensures exists rest :: multiset(Rank(hits) + rest) == multiset(hits)
              && forall x, y :: x in Rank(hits) && y in rest ==> x.score >= y.score
  {
    var sorted := SortDesc(hits, HitScore);
    SortDescSorted(hits, HitScore);
    SortDescPerm(hits, HitScore);
    var r := Rank(hits);
    assert r == sorted[..|r|];
    var rest := sorted[|r|..];
    assert r + rest == sorted;
    assert multiset(r + rest) == multiset(hits);
    forall x, y | x in r && y in rest ensures x.score >= y.score {
      PrefixDominates(sorted, |r|, x, y);
    }
  }

  /** In a list by non-increasing score, everything before a cut scores at least as much as everything after it. */
  lemma PrefixDominates(sorted: seq<Hit>, n: nat, x: Hit, y: Hit)
    requires NonIncreasing(sorted, HitScore) && n <= |sorted|
    requires x in sorted[..n] && y in sorted[n..]
    ensures x.score >= y.score
  {
    var i :| 0 <= i < n && sorted[..n][i] == x;
    var j :| 0 <= j < |sorted| - n && sorted[n..][j] == y;
    assert sorted[i] == x && sorted[n + j] == y;
    assert HitScore(sorted[i]) >= HitScore(sorted[n + j]);
  }

  /** Hits of equal score keep their scan order (the sort is stable). */
  lemma RankStable(hits: seq<Hit>, s: int)
    ensures WithKey(Rank(hits), HitScore, s) <= WithKey(hits, HitScore, s)
  {
    var sorted := SortDesc(hits, HitScore);
    assert Rank(hits) == sorted[..|Rank(hits)|];
    SortDescStable(hits, HitScore, s);
    WithKeyPrefix(sorted, |Rank(hits)|, HitScore, s);
  }

  /** What a group lists for each hit: text, score, tags and line number. */
  datatype Shown = Shown(matchedText: string, score: int, tags: seq<string>, lineNumber: Option<nat>)

  function ShownOf(h: Hit): Shown {
    Shown(h.matchedText, h.score, h.tags, h.lineNumber)
  }

  function HitFile(h: Hit): string {
    h.filename
  }
}
