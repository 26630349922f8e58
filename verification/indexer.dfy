/**
 * The indexing script (`index_documents.py`): it empties the knowledge base,
 * then for every `.docx` and `.pdf` file of the documents folder inserts one
 * entry per paragraph, tagged with the frequent words of the paragraph and of
 * the file name. The entries are those the Tk bot searches. The folder
 * listing and the parsed documents are parameters.
 */
module Indexer {
  import opened Text
  import opened Collections
  import opened Tags
  import opened Extract
  import opened Support

  /** The knowledge-base table. */
  class EntryTable {
    var entries: seq<Entry>

    constructor (entries: seq<Entry>)
      ensures this.entries == entries
    {
      this.entries := entries;
    }

    /** `db.truncate()`. */
    method Truncate()
      modifies this
      ensures entries == []
    {
      entries := [];
    }

    /** `db.insert(entry)`. */
    method Insert(e: Entry)
      modifies this
      ensures entries == old(entries) + [e]
    {
      entries := entries + [e];
    }
  }

  /** `list(set(generate_tags(para) + generate_tags(filename)))`, in first-seen order. */
  function EntryTags(para: string, filename: string, stopwords: set<string>): (r: seq<string>)
    ensures Distinct(r)
    ensures forall t :: t in r <==>
              t in GenerateTags(para, stopwords, DefaultTopN) || t in GenerateTags(filename, stopwords, DefaultTopN)
    ensures |r| <= 2 * DefaultTopN
  {
    Dedup(GenerateTags(para, stopwords, DefaultTopN) + GenerateTags(filename, stopwords, DefaultTopN))
  }

  function ParagraphEntry(filename: string, para: string, stopwords: set<string>): Entry {
    Entry(filename, para, EntryTags(para, filename, stopwords))
  }

  /** The entries of a run of paragraphs of one file, one each, in order. */
  function ParagraphEntries(filename: string, paras: seq<string>, stopwords: set<string>): (r: seq<Entry>)
    ensures |r| == |paras|
  {
    if paras == [] then []
    else ParagraphEntries(filename, paras[..|paras| - 1], stopwords)
         + [ParagraphEntry(filename, paras[|paras| - 1], stopwords)]
  }

  /** One more paragraph appends its entry. */
  lemma ParagraphEntriesStep(filename: string, paras: seq<string>, i: nat, stopwords: set<string>)
    requires i < |paras|
    ensures ParagraphEntries(filename, paras[..i + 1], stopwords)
            == ParagraphEntries(filename, paras[..i], stopwords) + [ParagraphEntry(filename, paras[i], stopwords)]
  {
    var prefix := paras[..i + 1];
    assert prefix[..|prefix| - 1] == paras[..i] && prefix[|prefix| - 1] == paras[i];
  }

  lemma {:induction false} ParagraphEntriesAt(filename: string, paras: seq<string>, stopwords: set<string>)
    ensures forall i :: 0 <= i < |paras| ==>
              ParagraphEntries(filename, paras, stopwords)[i] == ParagraphEntry(filename, paras[i], stopwords)
  {
    if paras != [] {
      var init := paras[..|paras| - 1];
      ParagraphEntriesAt(filename, init, stopwords);
      forall i | 0 <= i < |paras| - 1
        ensures ParagraphEntries(filename, paras, stopwords)[i] == ParagraphEntry(filename, paras[i], stopwords)
      {
        assert paras[i] == init[i];
      }
    }
  }

  /** Whether the script reads a file, and how. */
  predicate IsDocx(filename: string) {
    EndsWith(filename, ".docx")
  }

  predicate IsPdf(filename: string) {
    !IsDocx(filename) && EndsWith(filename, ".pdf")
  }

  /** The paragraphs of a file the script reads: the Word paragraphs, or the PDF lines. */
  function FileParagraphs(filename: string, docx: string -> seq<string>, pdf: string -> seq<PageText>): (r: seq<string>)
    ensures forall p :: p in r ==> IsChunk(p)
    ensures r != [] ==> EndsWith(filename, ".docx") || EndsWith(filename, ".pdf")
  {
    if IsDocx(filename) then ExtractDocxParagraphs(docx(filename))
    else if IsPdf(filename) then PdfLinesAreLines(pdf(filename)); PdfLines(pdf(filename))
    else []
  }

  /** The entries of one file of the folder: none unless it is a `.docx` or `.pdf` file. */
  function FileEntries(filename: string, docx: string -> seq<string>, pdf: string -> seq<PageText>,
                       stopwords: set<string>): seq<Entry> {
    ParagraphEntries(filename, FileParagraphs(filename, docx, pdf), stopwords)
  }

  /** The entries of the whole folder, file by file in listing order. */
  function FolderEntries(listing: seq<string>, docx: string -> seq<string>, pdf: string -> seq<PageText>,
                         stopwords: set<string>): seq<Entry> {
    if listing == [] then []
    else
      var f := listing[|listing| - 1];
      FolderEntries(listing[..|listing| - 1], docx, pdf, stopwords) + FileEntries(f, docx, pdf, stopwords)
  }

  /** The insert loop for one file's paragraphs. */
  method InsertParagraphs(table: EntryTable, filename: string, paras: seq<string>, stopwords: set<string>)
    modifies table
    ensures table.entries == old(table.entries) + ParagraphEntries(filename, paras, stopwords)
  {
    ghost var before := table.entries;
    for i := 0 to |paras|
      invariant table.entries == before + ParagraphEntries(filename, paras[..i], stopwords)
    {
      var e := ParagraphEntry(filename, paras[i], stopwords);
      ParagraphEntriesStep(filename, paras, i, stopwords);
      ConcatAssoc(before, ParagraphEntries(filename, paras[..i], stopwords), [e]);
      table.Insert(e);
    }
    assert paras[..|paras|] == paras;
  }

  /** The paragraphs of one file, read with the extractor for its kind. */
  method ReadParagraphs(filename: string, docx: string -> seq<string>, pdf: string -> seq<PageText>)
    returns (paras: seq<string>)
    ensures paras == FileParagraphs(filename, docx, pdf)
  {
    if EndsWith(filename, ".docx") {
      paras := ExtractDocxParagraphs(docx(filename));
    } else if EndsWith(filename, ".pdf") {
      paras := ExtractPdfText(pdf(filename));
    } else {
      paras := [];
    }
  }

  /** The loop over the folder listing. */
  method IndexFolder(table: EntryTable, listing: seq<string>, docx: string -> seq<string>,
                     pdf: string -> seq<PageText>, stopwords: set<string>)
    modifies table
    ensures table.entries == old(table.entries) + FolderEntries(listing, docx, pdf, stopwords)
  {
    ghost var before := table.entries;
    for i := 0 to |listing|
      invariant table.entries == before + FolderEntries(listing[..i], docx, pdf, stopwords)
    {
      var f := listing[i];
      assert listing[..i + 1][..i] == listing[..i];
      ghost var added := FileEntries(f, docx, pdf, stopwords);
      assert FolderEntries(listing[..i + 1], docx, pdf, stopwords) == FolderEntries(listing[..i], docx, pdf, stopwords) + added;
      ConcatAssoc(before, FolderEntries(listing[..i], docx, pdf, stopwords), added);
      var paras := ReadParagraphs(f, docx, pdf);
      InsertParagraphs(table, f, paras, stopwords);
    }
    assert listing[..|listing|] == listing;
  }

  /** `index_documents`: the table is emptied, then holds exactly the entries of this run. */
  method IndexDocuments(table: EntryTable, listing: seq<string>, docx: string -> seq<string>,
                        pdf: string -> seq<PageText>, stopwords: set<string>)
    modifies table
    ensures table.entries == FolderEntries(listing, docx, pdf, stopwords)
  {
    table.Truncate();
    IndexFolder(table, listing, docx, pdf, stopwords);
  }

  /**
   * Each paragraph of a `.docx` or `.pdf` file yields exactly one entry, in
   * order, naming the file, holding the paragraph, and tagged with the
   * duplicate-free union of the paragraph's and the file name's tags; other
   * files yield nothing.
   */
  lemma FileEntriesShape(filename: string, docx: string -> seq<string>, pdf: string -> seq<PageText>,
                         stopwords: set<string>)
    ensures var paras := FileParagraphs(filename, docx, pdf);
            var r := FileEntries(filename, docx, pdf, stopwords);
            && (!EndsWith(filename, ".docx") && !EndsWith(filename, ".pdf") ==> r == [])
            && |r| == |paras|
            && forall i :: 0 <= i < |r| ==>
                 r[i].file == filename && r[i].paragraph == paras[i] && Distinct(r[i].tags)
                 && forall t :: t in r[i].tags <==>
                      t in GenerateTags(paras[i], stopwords, DefaultTopN) || t in GenerateTags(filename, stopwords, DefaultTopN)
  {
    var paras := FileParagraphs(filename, docx, pdf);
    ParagraphEntriesAt(filename, paras, stopwords);
    assert FileEntries(filename, docx, pdf, stopwords) == ParagraphEntries(filename, paras, stopwords);
  }

  /** Every entry of a run comes from a `.docx` or `.pdf` file of the listing. */
  lemma {:induction false} FolderEntriesFromDocuments(listing: seq<string>, docx: string -> seq<string>,
                                                     pdf: string -> seq<PageText>, stopwords: set<string>, e: Entry)
    requires e in FolderEntries(listing, docx, pdf, stopwords)
    ensures e.file in listing && (EndsWith(e.file, ".docx") || EndsWith(e.file, ".pdf"))
  {
    var init := listing[..|listing| - 1];
    var f := listing[|listing| - 1];
    if e in FolderEntries(init, docx, pdf, stopwords) {
      FolderEntriesFromDocuments(init, docx, pdf, stopwords, e);
      assert e.file in listing;
    } else {
      FileEntriesShape(f, docx, pdf, stopwords);
      var r := FileEntries(f, docx, pdf, stopwords);
      var i :| 0 <= i < |r| && r[i] == e;
      assert f in listing;
    }
  }
}
