/**
 * Turning a document's text into paragraphs ("chunks"). Every extractor keeps
 * the stripped, non-blank pieces of its input: the lines of a text file, the
 * paragraphs of a Word document, the lines of each PDF page (indexer script)
 * or the long sentences of each blank-line separated block (Qt app). The
 * document parsers themselves are not modelled: their output is the input here.
 */
module Extract {
  import opened Wrappers
  import opened Text
  import opened Collections
  import opened Tags

  /** A chunk: not empty and without surrounding whitespace. */
  predicate IsChunk(p: string) {
    p != [] && !IsSpace(p[0]) && !IsSpace(p[|p| - 1])
  }

  /** `[x.strip() for x in pieces if x.strip()]`. */
  function NonBlankStripped(pieces: seq<string>): (r: seq<string>)
    ensures |r| <= |pieces|
    ensures forall p :: p in r ==> IsChunk(p)
  {
    if pieces == [] then []
    else
      var last := pieces[|pieces| - 1];
      NonBlankStripped(pieces[..|pieces| - 1]) + (if Strip(last) != [] then [Strip(last)] else [])
  }

  /** The chunks are exactly the strips of the non-blank pieces. */
  lemma {:induction false} NonBlankStrippedMembers(pieces: seq<string>)
    ensures forall x :: x in pieces && Strip(x) != [] ==> Strip(x) in NonBlankStripped(pieces)
    ensures forall p :: p in NonBlankStripped(pieces) ==> exists x :: x in pieces && Strip(x) == p
  {
    if pieces != [] {
      var init := pieces[..|pieces| - 1];
      NonBlankStrippedMembers(init);
      assert forall x :: x in pieces ==> x in init || x == pieces[|pieces| - 1];
      assert forall x :: x in init ==> x in pieces;
    }
  }

  /** Filtering distributes over concatenation. */
  lemma {:induction false} NonBlankStrippedAppend(a: seq<string>, b: seq<string>)
    ensures NonBlankStripped(a + b) == NonBlankStripped(a) + NonBlankStripped(b)
    decreases |b|
  {
    if b != [] {
      var b' := b[..|b| - 1];
      var last := b[|b| - 1];
      assert (a + b)[..|a + b| - 1] == a + b' && (a + b)[|a + b| - 1] == last;
      NonBlankStrippedAppend(a, b');
      var tail := if Strip(last) != [] then [Strip(last)] else [];
      assert NonBlankStripped(a + b) == (NonBlankStripped(a) + NonBlankStripped(b')) + tail;
      assert NonBlankStripped(b) == NonBlankStripped(b') + tail;
      ConcatAssoc(NonBlankStripped(a), NonBlankStripped(b'), tail);
    } else {
      assert a + b == a;
    }
  }

  /** Chunking a list of chunks changes nothing. */
  lemma {:induction false} NonBlankStrippedOfChunks(pieces: seq<string>)
    requires forall i :: 0 <= i < |pieces| ==> IsChunk(pieces[i])
    ensures NonBlankStripped(pieces) == pieces
  {
    if pieces != [] {
      var n := |pieces| - 1;
      var init := pieces[..n];
      var last := pieces[n];
      assert forall i :: 0 <= i < |init| ==> init[i] == pieces[i];
      NonBlankStrippedOfChunks(init);
      assert IsChunk(last);
      StripUnchanged(last);
      calc {
        NonBlankStripped(pieces);
        NonBlankStripped(init) + [Strip(last)];
        init + [last];
        pieces;
      }
    }
  }

  /** Chunking is idempotent. */
  lemma NonBlankStrippedIdempotent(pieces: seq<string>)
    ensures NonBlankStripped(NonBlankStripped(pieces)) == NonBlankStripped(pieces)
  {
    var r := NonBlankStripped(pieces);
    assert forall i :: 0 <= i < |r| ==> r[i] in r;
    NonBlankStrippedOfChunks(r);
  }

  /** A text without a separator has no character of it. */
  lemma NoNewlineWhenNotFound(p: string)
    ensures Find(p, "\n", 0) == -1 ==> '\n' !in p
  {
    if '\n' in p {
      var k :| 0 <= k < |p| && p[k] == '\n';
      assert p[k..k + 1] == "\n";
      FindFirst(p, "\n", 0, k);
    }
  }

  /** A stripped piece of a text without newlines has none either. */
  lemma StripNoNewline(p: string)
    requires '\n' !in p
    ensures '\n' !in Strip(p)
  {
    StripSlice(p);
    var i :| StrippedAt(p, Strip(p), i);
    forall k | 0 <= k < |Strip(p)| ensures Strip(p)[k] != '\n' {
      assert Strip(p)[k] == p[i + k];
    }
  }

  /** The stripped, non-blank lines of a text. */
  function NonBlankLines(text: string): seq<string> {
    NonBlankStripped(Split(text, "\n"))
  }

  /** Every line chunk is a single line. */
  lemma {:induction false} LineChunksAreSingleLines(text: string)
    ensures forall p :: p in NonBlankLines(text) ==> IsChunk(p) && '\n' !in p
  {
    SplitPartsFree(text, "\n");
    NonBlankStrippedMembers(Split(text, "\n"));
    forall p | p in NonBlankLines(text) ensures '\n' !in p {
      var x :| x in Split(text, "\n") && Strip(x) == p;
      NoNewlineWhenNotFound(x);
      StripNoNewline(x);
    }
  }

  /** A text with no non-blank line, the empty text among them, yields no chunk. */
  lemma {:induction false} BlankTextNoLines(text: string)
    requires AllIn(text, Space)
    ensures NonBlankLines(text) == []
  {
    JoinSplit(text, "\n");
    var parts := Split(text, "\n");
    forall x | x in parts ensures Strip(x) == [] {
      JoinPartIn(parts, "\n", x);
      StripBlank(x);
    }
    NonBlankNone(parts);
  }

  lemma {:induction false} NonBlankNone(pieces: seq<string>)
    requires forall x :: x in pieces ==> Strip(x) == []
    ensures NonBlankStripped(pieces) == []
  {
    if pieces != [] {
      assert forall x :: x in pieces[..|pieces| - 1] ==> x in pieces;
      NonBlankNone(pieces[..|pieces| - 1]);
      assert pieces[|pieces| - 1] in pieces;
    }
  }

  /** Every character of a joined part is a character of the joined text. */
  lemma {:induction false} JoinPartIn(parts: seq<string>, sep: string, x: string)
    requires |parts| >= 1 && x in parts
    ensures forall c :: c in x ==> c in Join(parts, sep)
  {
    if |parts| > 1 && x != parts[0] {
      JoinPartIn(parts[1..], sep, x);
      var j := Join(parts[1..], sep);
      assert Join(parts, sep) == parts[0] + sep + j;
      forall c | c in x ensures c in Join(parts, sep) {
        var k :| 0 <= k < |j| && j[k] == c;
        assert Join(parts, sep)[|parts[0]| + |sep| + k] == c;
      }
    } else if |parts| > 1 {
      assert Join(parts, sep) == parts[0] + (sep + Join(parts[1..], sep));
    }
  }

  /** `extract_txt_paragraphs`: the stripped, non-blank lines of the file's text. */
  function ExtractTxtParagraphs(content: string): (r: seq<string>)
    ensures forall p :: p in r ==> IsChunk(p) && '\n' !in p
    ensures forall x :: x in Split(content, "\n") && Strip(x) != [] ==> Strip(x) in r
    ensures forall p :: p in r ==> exists x :: x in Split(content, "\n") && Strip(x) == p
  {
    LineChunksAreSingleLines(content);
    NonBlankStrippedMembers(Split(content, "\n"));
    NonBlankLines(content)
  }

  /**
   * `extract_docx_paragraphs` and the indexer's `extract_docx_text`: the
   * stripped, non-blank paragraph texts of a Word document.
   */
  function ExtractDocxParagraphs(paragraphTexts: seq<string>): (r: seq<string>)
    ensures |r| <= |paragraphTexts|
    ensures forall p :: p in r ==> IsChunk(p)
    ensures forall x :: x in paragraphTexts && Strip(x) != [] ==> Strip(x) in r
    ensures forall p :: p in r ==> exists x :: x in paragraphTexts && Strip(x) == p
  {
    NonBlankStrippedMembers(paragraphTexts);
    NonBlankStripped(paragraphTexts)
  }

  /** The text of one PDF page, which `extract_text` reports as `None` or `""` when there is none. */
  type PageText = Option<string>

  /** The chunks the indexer takes from one page: its stripped, non-blank lines. */
  function PageLines(page: PageText): seq<string> {
    match page
    case None => []
    case Some(text) => if text == [] then [] else NonBlankLines(text)
  }

  /** The chunks of the pages in page order. */
  function PdfLines(pages: seq<PageText>): seq<string> {
    if pages == [] then [] else PdfLines(pages[..|pages| - 1]) + PageLines(pages[|pages| - 1])
  }

  /** Every chunk of a PDF is a single, stripped, non-blank line of one of its pages. */
  lemma {:induction false} PdfLinesAreLines(pages: seq<PageText>)
    ensures forall p :: p in PdfLines(pages) ==> IsChunk(p) && '\n' !in p
    ensures forall p :: p in PdfLines(pages) ==>
              exists i :: 0 <= i < |pages| && pages[i].Some? && p in NonBlankLines(pages[i].value)
  {
    if pages != [] {
      var init := pages[..|pages| - 1];
      PdfLinesAreLines(init);
      var last := pages[|pages| - 1];
      if last.Some? {
        LineChunksAreSingleLines(last.value);
      }
      forall p | p in PdfLines(pages)
        ensures exists i :: 0 <= i < |pages| && pages[i].Some? && p in NonBlankLines(pages[i].value)
      {
        if p in PdfLines(init) {
          var i :| 0 <= i < |init| && init[i].Some? && p in NonBlankLines(init[i].value);
          assert pages[i] == init[i];
        } else {
          assert pages[|pages| - 1] == last;
        }
      }
    }
  }

  /**
   * The chunking loop of `extract_pdf_text`: for every page with text, each
   * stripped, non-blank line is appended, in page and line order.
   */
  method ExtractPdfText(pages: seq<PageText>) returns (chunks: seq<string>)
    ensures chunks == PdfLines(pages)
  {
    chunks := [];
    for i := 0 to |pages|
      invariant chunks == PdfLines(pages[..i])
    {
      assert pages[..i + 1][..i] == pages[..i];
      assert PdfLines(pages[..i + 1]) == PdfLines(pages[..i]) + PageLines(pages[i]);
      var lines := [];
      match pages[i] {
        case None =>
        case Some(text) =>
          if text != [] {
            lines := PageChunks(text);
          }
      }
      chunks := chunks + lines;
    }
    assert pages[..|pages|] == pages;
  }

  /** The line loop for one page's text: each stripped, non-blank line, in order. */
  method PageChunks(text: string) returns (chunks: seq<string>)
    ensures chunks == NonBlankLines(text)
  {
    var lines := Split(text, "\n");
    chunks := [];
    for j := 0 to |lines|
      invariant chunks == NonBlankStripped(lines[..j])
    {
      assert lines[..j + 1][..j] == lines[..j];
      var line := Strip(lines[j]);
      if line != [] {
        chunks := chunks + [line];
      }
    }
    assert lines[..|lines|] == lines;
  }

  /** Pages are chunked independently: the chunks of two runs of pages concatenate. */
  lemma {:induction false} PdfLinesAppend(a: seq<PageText>, b: seq<PageText>)
    ensures PdfLines(a + b) == PdfLines(a) + PdfLines(b)
    decreases |b|
  {
    if b == [] {
      assert a + b == a;
    } else {
      var b' := b[..|b| - 1];
      var last := b[|b| - 1];
      assert (a + b)[..|a + b| - 1] == a + b' && (a + b)[|a + b| - 1] == last;
      PdfLinesAppend(a, b');
      assert PdfLines(a + b) == (PdfLines(a) + PdfLines(b')) + PageLines(last);
      assert PdfLines(b) == PdfLines(b') + PageLines(last);
      ConcatAssoc(PdfLines(a), PdfLines(b'), PageLines(last));
    }
  }

  /** How long a sentence must be for the Qt app to keep it. */
  const MinSentenceLength: nat := 20

  /** The sentences of one blank-line separated block that are longer than 20 characters, stripped. */
  function LongSentences(sentences: seq<string>): (r: seq<string>)
    ensures |r| <= |sentences|
    ensures forall i :: 0 <= i < |r| ==> exists s :: s in sentences && |s| > MinSentenceLength && r[i] == Strip(s)
    ensures forall p :: p in r ==> Strip(p) == p
  {
    if sentences == [] then []
    else
      var init := sentences[..|sentences| - 1];
      var last := sentences[|sentences| - 1];
      assert forall s :: s in init ==> s in sentences;
      LongSentences(init) + LongSentence(last)
  }

  /** The stripped sentence, if it is long enough. */
  function LongSentence(s: string): (r: seq<string>)
    ensures |r| <= 1
    ensures forall p :: p in r ==> |s| > MinSentenceLength && p == Strip(s) && Strip(p) == p
  {
    StripIdempotent(s);
    if |s| > MinSentenceLength then [Strip(s)] else []
  }

  /** The sentences the Qt app keeps from a block of text. */
  function BlockSentences(block: string, sentTokenize: string -> seq<string>): (r: seq<string>)
    ensures forall p :: p in r ==> Strip(p) == p
  {
    if Strip(block) == [] then [] else LongSentences(sentTokenize(Strip(block)))
  }

  function BlocksSentences(blocks: seq<string>, sentTokenize: string -> seq<string>): (r: seq<string>)
    ensures forall p :: p in r ==> Strip(p) == p
  {
    if blocks == [] then []
    else BlocksSentences(blocks[..|blocks| - 1], sentTokenize) + BlockSentences(blocks[|blocks| - 1], sentTokenize)
  }

  /**
   * `extract_pdf_paragraphs`: every page's text is cut into blocks at blank
   * lines (`"\n\n"`); each non-blank block is split into sentences by the NLTK
   * sentence tokenizer and the sentences longer than 20 characters are kept,
   * stripped.
   */
  function ExtractPdfParagraphs(pages: seq<PageText>, nlp: Nlp): (r: seq<string>)
    ensures forall p :: p in r ==> Strip(p) == p
  {
    if pages == [] then []
    else
      ExtractPdfParagraphs(pages[..|pages| - 1], nlp)
      + match pages[|pages| - 1]
        case None => []
        case Some(text) => PageSentences(text, nlp.sentTokenize)
  }

  /** The sentences kept from the text of one page: none from an empty text. */
  function PageSentences(text: string, sentTokenize: string -> seq<string>): (r: seq<string>)
    ensures forall p :: p in r ==> Strip(p) == p
  {
    if text == [] then [] else BlocksSentences(Split(text, "\n\n"), sentTokenize)
  }

  /** Sentence `s` of block `b` is one the Qt app keeps: the block is not blank and `s` is long enough. */
  predicate Kept(b: string, s: string, sentTokenize: string -> seq<string>) {
    Strip(b) != [] && s in sentTokenize(Strip(b)) && |s| > MinSentenceLength
  }

  /** `b` is one of the blank-line separated blocks of page `i`. */
  predicate BlockOfPage(pages: seq<PageText>, i: int, b: string) {
    0 <= i < |pages| && pages[i].Some? && b in Split(pages[i].value, "\n\n")
  }

  /** Every sentence longer than 20 characters is kept, stripped. */
  lemma {:induction false} LongSentencesComplete(sentences: seq<string>)
    ensures forall s :: s in sentences && |s| > MinSentenceLength ==> Strip(s) in LongSentences(sentences)
  {
    if sentences != [] {
      var init := sentences[..|sentences| - 1];
      LongSentencesComplete(init);
      assert forall s :: s in sentences ==> s in init || s == sentences[|sentences| - 1];
    }
  }

  /** The kept sentences of a run of blocks are exactly the stripped long sentences of its non-blank blocks. */
  lemma {:induction false} BlocksSentencesMembers(blocks: seq<string>, sentTokenize: string -> seq<string>)
    ensures forall p :: p in BlocksSentences(blocks, sentTokenize) ==>
              exists b, s :: b in blocks && Kept(b, s, sentTokenize) && p == Strip(s)
    ensures forall b, s :: b in blocks && Kept(b, s, sentTokenize) ==> Strip(s) in BlocksSentences(blocks, sentTokenize)
  {
    if blocks != [] {
      var init := blocks[..|blocks| - 1];
      var block := blocks[|blocks| - 1];
      BlocksSentencesMembers(init, sentTokenize);
      assert forall b :: b in blocks <==> b in init || b == block;
      forall p | p in BlockSentences(block, sentTokenize)
        ensures exists b, s :: b in blocks && Kept(b, s, sentTokenize) && p == Strip(s)
      {
        var r := LongSentences(sentTokenize(Strip(block)));
        var i :| 0 <= i < |r| && r[i] == p;
        var s :| s in sentTokenize(Strip(block)) && |s| > MinSentenceLength && r[i] == Strip(s);
        assert Kept(block, s, sentTokenize);
      }
      if Strip(block) != [] {
        LongSentencesComplete(sentTokenize(Strip(block)));
      }
    }
  }

  /** The sentences kept from one page are exactly the long sentences of its non-blank blocks. */
  lemma PageSentencesMembers(text: string, sentTokenize: string -> seq<string>)
    ensures forall p :: p in PageSentences(text, sentTokenize) ==>
              exists b, s :: b in Split(text, "\n\n") && Kept(b, s, sentTokenize) && p == Strip(s)
    ensures forall b, s :: b in Split(text, "\n\n") && Kept(b, s, sentTokenize) ==> Strip(s) in PageSentences(text, sentTokenize)
  {
    if text == [] {
      assert Split(text, "\n\n") == [text];
    } else {
      BlocksSentencesMembers(Split(text, "\n\n"), sentTokenize);
    }
  }

  /** One more page: its kept sentences follow those of the earlier pages. */
  lemma PdfParagraphsSnoc(pages: seq<PageText>, nlp: Nlp)
    requires pages != []
    ensures var n := |pages| - 1;
            ExtractPdfParagraphs(pages, nlp)
            == ExtractPdfParagraphs(pages[..n], nlp)
               + (if pages[n].Some? then PageSentences(pages[n].value, nlp.sentTokenize) else [])
  {
  }

  /** Every paragraph `extract_pdf_paragraphs` keeps is a stripped long sentence of a non-blank block of a page. */
  lemma {:induction false} PdfParagraphsSound(pages: seq<PageText>, nlp: Nlp)
    ensures forall p :: p in ExtractPdfParagraphs(pages, nlp) ==>
              exists i, b, s :: BlockOfPage(pages, i, b) && Kept(b, s, nlp.sentTokenize) && p == Strip(s)
  {
    if pages != [] {
      var n := |pages| - 1;
      var init := pages[..n];
      PdfParagraphsSound(init, nlp);
      PdfParagraphsSnoc(pages, nlp);
      forall p | p in ExtractPdfParagraphs(pages, nlp)
        ensures exists i, b, s :: BlockOfPage(pages, i, b) && Kept(b, s, nlp.sentTokenize) && p == Strip(s)
      {
        if p in ExtractPdfParagraphs(init, nlp) {
          var i, b, s :| BlockOfPage(init, i, b) && Kept(b, s, nlp.sentTokenize) && p == Strip(s);
          assert BlockOfPage(pages, i, b) by { assert pages[i] == init[i]; }
        } else {
          PageSentencesMembers(pages[n].value, nlp.sentTokenize);
          var b, s :| b in Split(pages[n].value, "\n\n") && Kept(b, s, nlp.sentTokenize) && p == Strip(s);
          assert BlockOfPage(pages, n, b);
        }
      }
    }
  }

  /** A kept sentence of a block of the last page is among that page's sentences. */
  lemma LastPageKept(pages: seq<PageText>, nlp: Nlp, b: string, s: string)
    requires pages != [] && BlockOfPage(pages, |pages| - 1, b) && Kept(b, s, nlp.sentTokenize)
    ensures Strip(s) in PageSentences(pages[|pages| - 1].value, nlp.sentTokenize)
  {
    PageSentencesMembers(pages[|pages| - 1].value, nlp.sentTokenize);
  }

  /** `extract_pdf_paragraphs` keeps every stripped long sentence of every non-blank block of every page. */
  lemma {:induction false} PdfParagraphsComplete(pages: seq<PageText>, nlp: Nlp)
    ensures forall i, b, s :: BlockOfPage(pages, i, b) && Kept(b, s, nlp.sentTokenize) ==>
              Strip(s) in ExtractPdfParagraphs(pages, nlp)
  {
    if pages != [] {
      var n := |pages| - 1;
      var init := pages[..n];
      var earlier := ExtractPdfParagraphs(init, nlp);
      var last := if pages[n].Some? then PageSentences(pages[n].value, nlp.sentTokenize) else [];
      PdfParagraphsSnoc(pages, nlp);
      forall i, b, s | BlockOfPage(pages, i, b) && Kept(b, s, nlp.sentTokenize)
        ensures Strip(s) in earlier + last
      {
        if i < n {
          assert BlockOfPage(init, i, b) by { assert pages[i] == init[i]; }
          PdfParagraphsComplete(init, nlp);
          assert Strip(s) in earlier;
        } else {
          assert i == n;
          assert BlockOfPage(pages, n, b);
          assert Kept(b, s, nlp.sentTokenize);
          LastPageKept(pages, nlp, b, s);
          assert Strip(s) in last;
        }
      }
    }
  }
}
