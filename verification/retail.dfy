/**
 * The Qt retail support app (`RetailSupportBotApp`): its paragraph records,
 * synonym groups and chat history, and the operations that change them —
 * search, uploading one document, batch indexing a folder, deleting a
 * document, adding and deleting synonym groups — with the listings of indexed
 * documents and tags. File dialogs, message boxes and widgets are left out;
 * what the user picks or confirms is a parameter.
 */
module Retail {
  import opened Wrappers
  import opened Text
  import opened Collections
  import opened Grouping
  import opened Synonyms
  import opened Tags
  import opened Extract
  import opened Search

  // ---- Listings ----

  function RecordFile(r: Record): string {
    r.filename
  }

  /** `get_indexed_documents`: the file names of the records, sorted, each once. */
  function IndexedDocuments(records: seq<Record>): (r: seq<string>)
    ensures StrictlyAscending(r) && Distinct(r)
    ensures forall name :: name in r <==> exists rec :: rec in records && rec.filename == name
  {
    var names := MapSeq(records, RecordFile);
    assert forall rec :: rec in records ==> rec.filename in names by {
      forall rec | rec in records ensures rec.filename in names {
        var i :| 0 <= i < |records| && records[i] == rec;
        assert names[i] == rec.filename;
      }
    }
    SortedUnique(names)
  }

  /** Every tag of the records, in record order. */
  function AllTagsOf(records: seq<Record>): (r: seq<string>)
    ensures forall t :: t in r <==> exists rec :: rec in records && t in rec.tags
  {
    if records == [] then []
    else
      var init := records[..|records| - 1];
      assert forall rec :: rec in records <==> rec in init || rec == records[|records| - 1];
      AllTagsOf(init) + records[|records| - 1].tags
  }

  /** `get_all_tags`: every tag of every record, sorted, each once. */
  function AllTags(records: seq<Record>): (r: seq<string>)
    ensures StrictlyAscending(r) && Distinct(r)
    ensures forall t :: t in r <==> exists rec :: rec in records && t in rec.tags
  {
    SortedUnique(AllTagsOf(records))
  }

  // ---- Paths and document kinds ----

  /** `s.rfind(c)`: the index of the last `c` in `s`, or -1 when there is none. */
  function LastIndex(s: string, c: char): (i: int)
    ensures -1 <= i < |s|
    ensures i >= 0 ==> s[i] == c
    ensures forall k :: i < k < |s| ==> s[k] != c
  {
    if s == [] then -1
    else if s[|s| - 1] == c then |s| - 1
    else LastIndex(s[..|s| - 1], c)
  }

  /** `Path(p).name` for a path without a trailing separator: the text after the last `/`. */
  function BaseName(path: string): (r: string)
    ensures forall k :: 0 <= k < |r| ==> r[k] != '/'
    ensures |r| <= |path|
  {
    if path == [] || path[|path| - 1] == '/' then []
    else BaseName(path[..|path| - 1]) + [path[|path| - 1]]
  }

  /** `Path(p).suffix`: from the last dot of the name, unless that dot is the name's first or last character. */
  function Suffix(name: string): (r: string)
    ensures r == [] || (r[0] == '.' && |r| >= 2 && |r| < |name|)
  {
    var i := LastIndex(name, '.');
    if 0 < i < |name| - 1 then name[i..] else []
  }

  datatype Kind = Pdf | Docx | Txt {
    /** The `filetype` field written for this kind. */
    function FileType(): string {
      match this
      case Pdf => "pdf"
      case Docx => "docx"
      case Txt => "txt"
    }
  }

  /** `upload_document`: by the lowered path's ending; anything not `.pdf` or `.docx` is read as text. */
  function KindOfPath(path: string): Kind {
    if EndsWith(Lower(path), ".pdf") then Pdf
    else if EndsWith(Lower(path), ".docx") then Docx
    else Txt
  }

  /** `batch_index`: by the lowered suffix of the file name. */
  function KindOfSuffix(path: string): Kind {
    var suffix := Lower(Suffix(BaseName(path)));
    if suffix == ".pdf" then Pdf
    else if suffix == ".docx" then Docx
    else Txt
  }

  /** The base name is the tail of the path. */
  lemma {:induction false} BaseNameIsTail(path: string)
    ensures BaseName(path) == path[|path| - |BaseName(path)|..]
  {
    if path != [] && path[|path| - 1] != '/' {
      var init := path[..|path| - 1];
      BaseNameIsTail(init);
      assert path[|path| - |BaseName(path)|..] == init[|init| - |BaseName(init)|..] + [path[|path| - 1]];
    }
  }

  /** A tail of the path without `/` lies inside the base name. */
  lemma {:induction false} BaseNameKeepsTail(path: string, j: nat)
    requires j <= |path| && forall k :: |path| - j <= k < |path| ==> path[k] != '/'
    ensures |BaseName(path)| >= j
  {
    if j > 0 {
      var init := path[..|path| - 1];
      assert forall k :: |init| - (j - 1) <= k < |init| ==> init[k] == path[k];
      BaseNameKeepsTail(init, j - 1);
    }
  }

  /** An extension as the two tests compare it: a dot and lower-case letters. */
  predicate IsExtension(e: string) {
    |e| >= 2 && e[0] == '.' && forall k :: 1 <= k < |e| ==> 'a' <= e[k] <= 'z'
  }

  /** Lowering commutes with taking the last `n` characters. */
  lemma LowerTail(s: string, n: nat)
    requires n <= |s|
    ensures Lower(s)[|s| - n..] == Lower(s[|s| - n..])
  {
  }

  /** The suffix of the base name is a tail of the path. */
  lemma SuffixTail(path: string, name: string, ext: string)
    requires |name| <= |path| && name == path[|path| - |name|..] && ext == Suffix(name)
    ensures |ext| <= |path| && ext == path[|path| - |ext|..]
  {
    SuffixIsTail(name);
    TailOfTail(path, name, ext);
  }

  /** A suffix is the tail of its name. */
  lemma SuffixIsTail(name: string)
    ensures Suffix(name) == name[|name| - |Suffix(name)|..]
  {
  }

  /** A tail of a tail is a tail. */
  lemma TailOfTail(path: string, name: string, ext: string)
    requires |name| <= |path| && |ext| <= |name|
    requires name == path[|path| - |name|..] && ext == name[|name| - |ext|..]
    ensures ext == path[|path| - |ext|..]
  {
    assert forall k :: 0 <= k < |ext| ==> ext[k] == path[|path| - |ext| + k];
  }

  /** A tail of the path without `/` is also the tail of the base name. */
  lemma BaseNameHoldsTail(path: string, name: string, tail: string)
    requires name == BaseName(path) && |tail| <= |path| && tail == path[|path| - |tail|..]
    requires forall k :: 0 <= k < |tail| ==> tail[k] != '/'
    ensures |name| >= |tail| && name[|name| - |tail|..] == tail
  {
    var n := |tail|;
    forall k | |path| - n <= k < |path| ensures path[k] != '/' {
      assert path[k] == tail[k - (|path| - n)];
    }
    BaseNameKeepsTail(path, n);
    BaseNameIsTail(path);
    TailOfTail(path, name, name[|name| - n..]);
  }

  /** A name ending in a dot followed by no other dot has its last dot there. */
  lemma LastDotAt(name: string, tail: string)
    requires |tail| <= |name| && name[|name| - |tail|..] == tail
    requires |tail| >= 1 && tail[0] == '.' && forall m :: 1 <= m < |tail| ==> tail[m] != '.'
    ensures LastIndex(name, '.') == |name| - |tail|
  {
    var j := |name| - |tail|;
    assert name[j] == '.';
    forall k | j < k < |name| ensures name[k] != '.' {
      assert name[k] == tail[k - j];
    }
  }

  /** Lowering keeps every character that is not an upper- or lower-case letter. */
  lemma LowerCharKeeps(c: char, x: char)
    requires !('a' <= x <= 'z') && !('A' <= x <= 'Z')
    ensures LowerChar(c) == x <==> c == x
  {
  }

  /** Text that lowers to an extension has no `/`, and its only dot comes first. */
  lemma ExtensionChars(tail: string, e: string)
    requires IsExtension(e) && |tail| == |e|
    requires forall k :: 0 <= k < |e| ==> LowerChar(tail[k]) == e[k]
    ensures forall k :: 0 <= k < |tail| ==> tail[k] != '/' && (tail[k] == '.' <==> k == 0)
  {
    forall k | 0 <= k < |tail| ensures tail[k] != '/' && (tail[k] == '.' <==> k == 0) {
      LowerCharKeeps(tail[k], '/');
      LowerCharKeeps(tail[k], '.');
    }
  }

  /** Where the last dot is fixes the suffix. */
  lemma SuffixFromDot(name: string, j: int)
    requires LastIndex(name, '.') == j
    ensures Suffix(name) == if 0 < j < |name| - 1 then name[j..] else []
  {
  }

  /** The lowered path ends in the lowered suffix of its base name. */
  lemma PathEndsInSuffix(path: string)
    ensures EndsWith(Lower(path), Lower(Suffix(BaseName(path))))
  {
    BaseNameIsTail(path);
    NameEndsInSuffix(path, BaseName(path));
  }

  /** A path ends, lowered, in the lowered suffix of any name it ends in. */
  lemma NameEndsInSuffix(path: string, name: string)
    requires |name| <= |path| && name == path[|path| - |name|..]
    ensures EndsWith(Lower(path), Lower(Suffix(name)))
  {
    var ext := Suffix(name);
    SuffixTail(path, name, ext);
    LowerTail(path, |ext|);
  }

  /** The last characters of a lowered path ending in `e` lower one by one to those of `e`. */
  lemma EndingLowers(path: string, e: string)
    requires EndsWith(Lower(path), e)
    ensures |e| <= |path| && forall k :: 0 <= k < |e| ==> LowerChar(path[|path| - |e|..][k]) == e[k]
  {
    LowerTail(path, |e|);
  }

  /** A path whose last characters lower to extension `e` has those as suffix exactly when its name is longer. */
  lemma SuffixOfExtension(path: string, e: string)
    requires IsExtension(e) && |e| <= |path|
    requires forall k :: 0 <= k < |e| ==> LowerChar(path[|path| - |e|..][k]) == e[k]
    ensures |BaseName(path)| > |e| ==> Suffix(BaseName(path)) == path[|path| - |e|..]
    ensures |BaseName(path)| <= |e| ==> Suffix(BaseName(path)) == []
  {
    var name := BaseName(path);
    var tail := path[|path| - |e|..];
    ExtensionChars(tail, e);
    BaseNameHoldsTail(path, name, tail);
    NameSuffix(name, tail);
  }

  /** A name ending in an extension-like tail has that tail as suffix, unless the name is only the tail. */
  lemma NameSuffix(name: string, tail: string)
    requires |tail| >= 2 && |tail| <= |name| && name[|name| - |tail|..] == tail
    requires forall k :: 0 <= k < |tail| ==> (tail[k] == '.' <==> k == 0)
    ensures |name| > |tail| ==> Suffix(name) == tail
    ensures |name| == |tail| ==> Suffix(name) == []
  {
    LastDotAt(name, tail);
    SuffixFromDot(name, |name| - |tail|);
  }

  /** A lowered path ending in extension `e` has that suffix exactly when its name is longer than `e`. */
  lemma LoweredSuffixOfExtension(path: string, e: string)
    requires IsExtension(e) && EndsWith(Lower(path), e)
    ensures Lower(Suffix(BaseName(path))) == e <==> |BaseName(path)| > |e|
  {
    EndingLowers(path, e);
    SuffixOfExtension(path, e);
    LowerTail(path, |e|);
  }

  /**
   * `upload_document` and `batch_index` pick the same reader, except for a
   * file named just ".pdf" or ".docx": the path test reads it as that kind,
   * while `Path.suffix` is empty for it and the batch reads it as text.
   */
  lemma KindsAgree(path: string)
    ensures KindOfSuffix(path) != Txt ==> KindOfPath(path) == KindOfSuffix(path)
    ensures KindOfPath(path) != Txt ==>
              (KindOfSuffix(path) == KindOfPath(path) <==> |BaseName(path)| > |KindOfPath(path).FileType()| + 1)
  {
    SuffixKindOnPath(path);
    if KindOfPath(path) != Txt {
      PathKindOnSuffix(path, KindOfPath(path));
    }
  }

  /** A path read as PDF or Word by its ending is read the same way by its suffix unless its name is only the ending. */
  lemma PathKindOnSuffix(path: string, kind: Kind)
    requires kind != Txt && KindOfPath(path) == kind
    ensures KindOfSuffix(path) == kind <==> |BaseName(path)| > |kind.FileType()| + 1
  {
    var e := "." + kind.FileType();
    KindEnding(kind);
    assert EndsWith(Lower(path), e);
    LoweredSuffixOfExtension(path, e);
  }

  /** The ending each reader is chosen by is an extension. */
  lemma KindEnding(kind: Kind)
    requires kind != Txt
    ensures IsExtension("." + kind.FileType())
  {
  }

  /** A `.pdf` or `.docx` suffix makes the lowered path end the same way. */
  lemma SuffixKindOnPath(path: string)
    ensures KindOfSuffix(path) != Txt ==> KindOfPath(path) == KindOfSuffix(path)
  {
    var suffix := Lower(Suffix(BaseName(path)));
    PathEndsInSuffix(path);
    if suffix == ".docx" {
      var lp := Lower(path);
      assert lp[|lp| - 1] == suffix[4] == 'x';
    }
  }

  // ---- Building records ----

  /**
   * What the document parsers return for a file: the PDF page texts, the Word
   * paragraph texts, the plain text, and the paths of the images saved out
   * of a PDF or Word file.
   */
  datatype RawDocument = RawDocument(pdfPages: seq<PageText>, docxParagraphs: seq<string>,
                                     text: string, imagePaths: seq<string>)

  /** The paragraphs of a document of the given kind. */
  function Paragraphs(kind: Kind, raw: RawDocument, nlp: Nlp): seq<string> {
    match kind
    case Pdf => ExtractPdfParagraphs(raw.pdfPages, nlp)
    case Docx => ExtractDocxParagraphs(raw.docxParagraphs)
    case Txt => ExtractTxtParagraphs(raw.text)
  }

  /** The images of a document: none for a text file. */
  function Images(kind: Kind, raw: RawDocument): seq<string> {
    if kind == Txt then [] else raw.imagePaths
  }

  /** The record of one paragraph. */
  function ParagraphRecord(name: string, kind: Kind, para: string, images: seq<string>, nlp: Nlp): Record {
    Record(name, kind.FileType(), para, GenerateDocumentTags(para, name, nlp), images)
  }

  /** The records inserted for a run of paragraphs, one each, in order. */
  function ParagraphRecords(name: string, kind: Kind, paras: seq<string>, images: seq<string>, nlp: Nlp): (r: seq<Record>)
    ensures |r| == |paras|
  {
    if paras == [] then []
    else
      ParagraphRecords(name, kind, paras[..|paras| - 1], images, nlp)
      + [ParagraphRecord(name, kind, paras[|paras| - 1], images, nlp)]
  }

  lemma {:induction false} ParagraphRecordsAt(name: string, kind: Kind, paras: seq<string>, images: seq<string>, nlp: Nlp)
    ensures forall i :: 0 <= i < |paras| ==>
              ParagraphRecords(name, kind, paras, images, nlp)[i] == ParagraphRecord(name, kind, paras[i], images, nlp)
  {
    if paras != [] {
      var init := paras[..|paras| - 1];
      ParagraphRecordsAt(name, kind, init, images, nlp);
      forall i | 0 <= i < |paras| - 1
        ensures ParagraphRecords(name, kind, paras, images, nlp)[i] == ParagraphRecord(name, kind, paras[i], images, nlp)
      {
        assert paras[i] == init[i];
      }
    }
  }

  /** The records of a whole document. */
  function DocumentRecords(name: string, kind: Kind, raw: RawDocument, nlp: Nlp): seq<Record> {
    ParagraphRecords(name, kind, Paragraphs(kind, raw, nlp), Images(kind, raw), nlp)
  }

  /**
   * A document's records: one per paragraph, in order, all with the document's
   * file name, file type and images; each with the paragraph's text and the
   * tags of that text and the file name.
   */
  lemma DocumentRecordsShape(name: string, kind: Kind, raw: RawDocument, nlp: Nlp)
    ensures var r := DocumentRecords(name, kind, raw, nlp);
            var paras := Paragraphs(kind, raw, nlp);
            && |r| == |paras|
            && forall i :: 0 <= i < |r| ==>
                 r[i].filename == name && r[i].filetype == kind.FileType() && r[i].imagePaths == Images(kind, raw)
                 && r[i].text == paras[i] && r[i].tags == GenerateDocumentTags(paras[i], name, nlp)
  {
    ParagraphRecordsAt(name, kind, Paragraphs(kind, raw, nlp), Images(kind, raw), nlp);
  }

  /** The batch's new files: those whose names are not among the indexed documents. */
  function NewFiles(docFiles: seq<string>, indexed: seq<string>): (r: seq<string>)
    ensures forall f :: f in r <==> f in docFiles && BaseName(f) !in indexed
  {
    if docFiles == [] then []
    else
      var init := docFiles[..|docFiles| - 1];
      var f := docFiles[|docFiles| - 1];
      assert forall g :: g in docFiles <==> g in init || g == f;
      NewFiles(init, indexed) + (if BaseName(f) !in indexed then [f] else [])
  }

  /** The records `batch_index` inserts for one file, its type taken from its suffix. */
  function FileRecords(f: string, read: string -> RawDocument, nlp: Nlp): seq<Record> {
    DocumentRecords(BaseName(f), KindOfSuffix(f), read(f), nlp)
  }

  /** The records a batch inserts, file by file. */
  function BatchRecords(files: seq<string>, read: string -> RawDocument, nlp: Nlp): seq<Record> {
    if files == [] then []
    else
      BatchRecords(files[..|files| - 1], read, nlp) + FileRecords(files[|files| - 1], read, nlp)
  }

  /** One more file of a batch appends that file's records. */
  lemma BatchRecordsStep(files: seq<string>, i: nat, read: string -> RawDocument, nlp: Nlp)
    requires i < |files|
    ensures BatchRecords(files[..i + 1], read, nlp) == BatchRecords(files[..i], read, nlp) + FileRecords(files[i], read, nlp)
  {
    var prefix := files[..i + 1];
    assert prefix[..|prefix| - 1] == files[..i] && prefix[|prefix| - 1] == files[i];
  }

  /** The records of every file other than `name`, in their order. */
  function WithoutFile(records: seq<Record>, name: string): (r: seq<Record>)
    ensures forall rec :: rec in r <==> rec in records && rec.filename != name
  {
    if records == [] then []
    else
      assert forall rec :: rec in records <==> rec == records[0] || rec in records[1..];
      (if records[0].filename != name then [records[0]] else []) + WithoutFile(records[1..], name)
  }

  /** The images of the records of file `name`. */
  function FileImages(records: seq<Record>, name: string): (r: set<string>)
    ensures forall x :: x in r <==> exists rec :: rec in records && rec.filename == name && x in rec.imagePaths
  {
    if records == [] then {}
    else
      var init := records[..|records| - 1];
      var last := records[|records| - 1];
      assert forall rec :: rec in records <==> rec in init || rec == last;
      FileImages(init, name) + (if last.filename == name then PathSet(last.imagePaths) else {})
  }

  // ---- Outcomes ----

  /** What `search` shows. */
  datatype SearchOutcome =
    | EmptyQuery                      // the "Please enter a question" warning
    | InvalidPattern                  // the "Invalid regex pattern" error
    | MarkupError                     // the `re.error` that escapes when a fuzzy term is not a valid pattern
    | Answer(ranked: seq<Hit>, groups: Groups<Shown>, images: set<string>)

  datatype UploadOutcome =
    | Cancelled                       // no file chosen
    | AlreadyIndexed                  // a document of that name is indexed
    | Indexed(records: nat)           // the number of records inserted

  datatype BatchOutcome =
    | NoNewFiles
    | BatchIndexed(files: nat)

  datatype DeleteOutcome =
    | NoSelection
    | NotConfirmed
    | Deleted(images: set<string>)    // the images to remove from disk

  /** A compiled pattern: its line test and its number of capturing groups. */
  datatype Compiled = Compiled(search: LinePattern, groups: nat)

  /** `re.compile(pattern, flags)`, or `None` when it raises `re.error`; the flag asks for case-sensitive matching. */
  type Compiler = (string, bool) -> Option<Compiled>

  /** The pattern that marks up one expanded word in a fuzzy hit: `\b(word)\b`. */
  function WordPattern(word: string): string {
    "\\b(" + word + ")\\b"
  }

  /**
   * Whether `re.sub(WordPattern(word), r'<b>\1</b>', text, flags=re.IGNORECASE)`
   * goes through: the pattern must compile, and the template's `\1` needs
   * the pattern to have a first group. `re.sub` checks both before it looks
   * for a match, so either failure raises `re.error` whatever the text.
   */
  predicate MarkupValid(compile: Compiler, word: string) {
    var c := compile(WordPattern(word), false);
    c.Some? && c.value.groups >= 1
  }

  /**
   * The markup loop of the fuzzy branch: each expanded word is compiled,
   * ignoring case, into the pattern that bolds it and substituted; the first
   * word whose pattern or template fails raises, and nothing catches it.
   */
  method MarkupCompiles(terms: set<string>, compile: Compiler) returns (ok: bool)
    ensures ok <==> forall t :: t in terms ==> MarkupValid(compile, t)
  {
    var rest := terms;
    while rest != {}
      invariant rest <= terms
      invariant forall t :: t in terms - rest ==> MarkupValid(compile, t)
      decreases rest
    {
      var t :| t in rest;
      var c := compile(WordPattern(t), false);
      if c.None? || c.value.groups < 1 {
        return false;
      }
      rest := rest - {t};
    }
    return true;
  }

  /** How the scan of a non-blank query ends. */
  datatype Scanned =
    | Scanned(hits: seq<Hit>)         // the unsorted hits
    | BadRegex                        // regex mode: the query does not compile
    | BadMarkup                       // fuzzy mode: a hit exists and some word's markup `re.sub` raises

  /** The unsorted hits of a search with a non-blank query, or why there are none to show. */
  ghost function Scan(records: seq<Record>, syns: SynonymMap, query: string, f: Filters, regex: bool,
                      caseSensitive: bool, compile: Compiler, ratio: Similarity): Scanned
    requires Tokens(Lower(query)) != []
  {
    if regex then
      match compile(query, caseSensitive)
      case None => BadRegex
      case Some(p) => Scanned(RegexHits(records, f, p.search))
    else
      var terms := Expansion(MemberOnly, Tokens(Lower(query)), syns);
      ExpansionHasQueryWords(MemberOnly, Tokens(Lower(query)), syns);
      assert Tokens(Lower(query))[0] in terms;
      var hits := FuzzyHits(records, f, terms, ratio);
      if hits != [] && exists t :: t in terms && !MarkupValid(compile, t) then BadMarkup
      else Scanned(hits)
  }

  /**
   * The scanning part of `search` for a non-blank query: the synonym
   * expansion, then the regex or the fuzzy pass over the records, with the
   * images of every hit.
   */
  method ScanRecords(records: seq<Record>, syns: SynonymMap, query: string, f: Filters, regex: bool,
                     caseSensitive: bool, compile: Compiler, ratio: Similarity)
    returns (scanned: Scanned, images: set<string>)
    requires Tokens(Lower(query)) != []
    ensures scanned == Scan(records, syns, query, f, regex, caseSensitive, compile, ratio)
    ensures scanned.Scanned? ==> images == ImagesOf(scanned.hits)
  {
    var expanded := ExpandQuery(MemberOnly, query, syns);
    ExpansionHasQueryWords(MemberOnly, Tokens(Lower(query)), syns);
    assert Tokens(Lower(query))[0] in expanded;
    var hits: seq<Hit>;
    if regex {
      var compiled := compile(query, caseSensitive);
      if compiled.None? {
        return BadRegex, {};
      }
      hits, images := RegexScan(records, f, compiled.value.search);
    } else {
      hits, images := FuzzyScan(records, f, expanded, ratio);
      if hits != [] {
        var ok := MarkupCompiles(expanded, compile);
        if !ok {
          return BadMarkup, {};
        }
      }
    }
    scanned := Scanned(hits);
  }

  class RetailApp {
    /** The records table. */
    var records: seq<Record>
    /** The synonym groups, by key. */
    var synonyms: SynonymMap
    /** Every query searched, in order. */
    var chatHistory: seq<string>
    /** The NLTK tokenizers and stopwords. */
    const nlp: Nlp

    constructor (nlp: Nlp, records: seq<Record>, synonyms: SynonymMap)
      ensures this.nlp == nlp && this.records == records && this.synonyms == synonyms && chatHistory == []
    {
      this.nlp := nlp;
      this.records := records;
      this.synonyms := synonyms;
      chatHistory := [];
    }

    /**
     * `search`: a blank query only warns. Otherwise the stripped query joins
     * the chat history; then the matching hits are ranked (at most 10, by
     * score), grouped by file name, and shown with the images of every hit.
     * An invalid pattern in regex mode shows an error instead; in fuzzy mode,
     * an expanded word whose markup pattern does not compile, or compiles
     * without a first group for the `\1` of the template, makes `search`
     * raise once there is a hit to mark up.
     */
    method Search(queryText: string, f: Filters, regex: bool, caseSensitive: bool,
                  compile: Compiler, ratio: Similarity) returns (outcome: SearchOutcome)
      modifies this`chatHistory
      ensures Strip(queryText) == [] ==> outcome == EmptyQuery && chatHistory == old(chatHistory)
      ensures Strip(queryText) != [] ==> chatHistory == old(chatHistory) + [Strip(queryText)]
      ensures Strip(queryText) != [] ==>
                Tokens(Lower(Strip(queryText))) != [] &&
                match Scan(records, synonyms, Strip(queryText), f, regex, caseSensitive, compile, ratio)
                case BadRegex => outcome == InvalidPattern
                case BadMarkup => outcome == MarkupError
                case Scanned(hits) =>
                  && outcome.Answer?
                  && outcome.ranked == Rank(hits)
                  && outcome.images == ImagesOf(hits)
                  && GroupKeys(outcome.groups) == Dedup(MapSeq(outcome.ranked, HitFile))
                  && forall i :: 0 <= i < |outcome.groups| ==>
                       outcome.groups[i].1 == MapSeq(WithKey(outcome.ranked, HitFile, outcome.groups[i].0), ShownOf)
    {
      var query := Strip(queryText);
      if query == [] {
        return EmptyQuery;
      }
      chatHistory := chatHistory + [query];
      StripIdempotent(queryText);
      QueryHasTokens(query);
      var scanned, images := ScanRecords(records, synonyms, query, f, regex, caseSensitive, compile, ratio);
      match scanned
      case BadRegex =>
        outcome := InvalidPattern;
      case BadMarkup =>
        outcome := MarkupError;
      case Scanned(hits) =>
        var ranked := Rank(hits);
        var groups := GroupBy(ranked, HitFile, ShownOf);
        outcome := Answer(ranked, groups, images);
    }

    /** The insert loop: one record per paragraph, appended in order. */
    method InsertParagraphs(name: string, kind: Kind, paras: seq<string>, images: seq<string>)
      modifies this`records
      ensures records == old(records) + ParagraphRecords(name, kind, paras, images, nlp)
    {
      ghost var before := records;
      for i := 0 to |paras|
        invariant records == before + ParagraphRecords(name, kind, paras[..i], images, nlp)
      {
        assert paras[..i + 1][..i] == paras[..i];
        var rec := ParagraphRecord(name, kind, paras[i], images, nlp);
        assert ParagraphRecords(name, kind, paras[..i + 1], images, nlp)
            == ParagraphRecords(name, kind, paras[..i], images, nlp) + [rec];
        ConcatAssoc(before, ParagraphRecords(name, kind, paras[..i], images, nlp), [rec]);
        records := records + [rec];
      }
      assert paras[..|paras|] == paras;
    }

    /** The records of one document are appended. */
    method InsertDocument(name: string, kind: Kind, raw: RawDocument) returns (count: nat)
      modifies this`records
      ensures records == old(records) + DocumentRecords(name, kind, raw, nlp)
      ensures count == |DocumentRecords(name, kind, raw, nlp)|
    {
      var paras := Paragraphs(kind, raw, nlp);
      InsertParagraphs(name, kind, paras, Images(kind, raw));
      count := |paras|;
    }

    /**
     * `upload_document`: nothing happens when no file is chosen or a document
     * of that name is already indexed; otherwise the document's records are
     * appended.
     */
    method UploadDocument(path: string, read: string -> RawDocument) returns (outcome: UploadOutcome)
      modifies this`records
      ensures path == [] ==> outcome == Cancelled && records == old(records)
      ensures path != [] && BaseName(path) in IndexedDocuments(old(records)) ==>
                outcome == AlreadyIndexed && records == old(records)
      ensures path != [] && BaseName(path) !in IndexedDocuments(old(records)) ==>
                var added := DocumentRecords(BaseName(path), KindOfPath(path), read(path), nlp);
                records == old(records) + added && outcome == Indexed(|added|)
    {
      if path == [] {
        return Cancelled;
      }
      var name := BaseName(path);
      if name in IndexedDocuments(records) {
        return AlreadyIndexed;
      }
      var count := InsertDocument(name, KindOfPath(path), read(path));
      outcome := Indexed(count);
    }

    /** The indexing loop of `batch_index`: each file's records are appended in turn. */
    method IndexFiles(files: seq<string>, read: string -> RawDocument)
      modifies this`records
      ensures records == old(records) + BatchRecords(files, read, nlp)
    {
      ghost var before := records;
      for i := 0 to |files|
        invariant records == before + BatchRecords(files[..i], read, nlp)
      {
        BatchRecordsStep(files, i, read, nlp);
        ConcatAssoc(before, BatchRecords(files[..i], read, nlp), FileRecords(files[i], read, nlp));
        IndexFile(files[i], read);
      }
      assert files[..|files|] == files;
    }

    /** One file of `batch_index`: its records are appended. */
    method IndexFile(f: string, read: string -> RawDocument)
      modifies this`records
      ensures records == old(records) + FileRecords(f, read, nlp)
    {
      var _ := InsertDocument(BaseName(f), KindOfSuffix(f), read(f));
    }

    /**
     * `batch_index`: the files whose names are not yet indexed are indexed one
     * after another; when there are none, nothing happens.
     */
    method BatchIndex(docFiles: seq<string>, read: string -> RawDocument) returns (outcome: BatchOutcome)
      modifies this`records
      ensures var newFiles := NewFiles(docFiles, IndexedDocuments(old(records)));
              && records == old(records) + BatchRecords(newFiles, read, nlp)
              && outcome == if newFiles == [] then NoNewFiles else BatchIndexed(|newFiles|)
    {
      var newFiles := NewFiles(docFiles, IndexedDocuments(records));
      if newFiles == [] {
        return NoNewFiles;
      }
      IndexFiles(newFiles, read);
      outcome := BatchIndexed(|newFiles|);
    }

    /**
     * `delete_document`: with a document selected and the deletion confirmed,
     * every record of that file is removed and the images of those records
     * are returned for removal from disk.
     */
    method DeleteDocument(selected: Option<string>, confirmed: bool) returns (outcome: DeleteOutcome)
      modifies this`records
      ensures selected.None? ==> outcome == NoSelection && records == old(records)
      ensures selected.Some? && !confirmed ==> outcome == NotConfirmed && records == old(records)
      ensures selected.Some? && confirmed ==>
                records == WithoutFile(old(records), selected.value)
                && outcome == Deleted(FileImages(old(records), selected.value))
    {
      if selected.None? {
        return NoSelection;
      }
      if !confirmed {
        return NotConfirmed;
      }
      var name := selected.value;
      var images: set<string> := {};
      for i := 0 to |records|
        invariant images == FileImages(records[..i], name)
      {
        assert records[..i + 1][..i] == records[..i];
        if records[i].filename == name {
          images := images + PathSet(records[i].imagePaths);
        }
      }
      assert records[..|records|] == records;
      records := WithoutFile(records, name);
      outcome := Deleted(images);
    }

    /**
     * `add_synonym`: input that is blank or has no comma is refused and changes
     * nothing; otherwise the group of normalized words is stored under its
     * first word.
     */
    method AddSynonym(input: string) returns (outcome: Result<seq<string>, SynonymInputError>)
      modifies this`synonyms
      ensures outcome == ParseSynonymGroup(input)
      ensures outcome.Failure? ==> synonyms == old(synonyms)
      ensures outcome.Success? ==> synonyms == AddGroup(old(synonyms), outcome.value)
    {
      outcome := ParseSynonymGroup(input);
      if outcome.Success? {
        synonyms := AddGroup(synonyms, outcome.value);
      }
    }

    /** `delete_synonym`: the selected group, which is one of the listed keys, is removed. */
    method DeleteSynonym(selected: Option<string>) returns (deleted: bool)
      requires selected.Some? ==> selected.value in synonyms
      modifies this`synonyms
      ensures deleted == selected.Some?
      ensures selected.None? ==> synonyms == old(synonyms)
      ensures selected.Some? ==> synonyms == DeleteGroup(old(synonyms), selected.value)
    {
      if selected.None? {
        return false;
      }
      synonyms := DeleteGroup(synonyms, selected.value);
      deleted := true;
    }
  }

  // ---- Properties of the bookkeeping ----

  /** After a document with at least one paragraph is indexed, uploading a file of the same name is refused. */
  lemma IndexedThenDuplicate(records: seq<Record>, name: string, kind: Kind, raw: RawDocument, nlp: Nlp)
    requires Paragraphs(kind, raw, nlp) != []
    ensures name in IndexedDocuments(records + DocumentRecords(name, kind, raw, nlp))
  {
    var added := DocumentRecords(name, kind, raw, nlp);
    DocumentRecordsShape(name, kind, raw, nlp);
    assert added[0].filename == name;
    assert added[0] in records + added;
  }

  /** Deleting a document removes its name from the listing and leaves every other document listed. */
  lemma DeleteRemovesDocument(records: seq<Record>, name: string)
    ensures name !in IndexedDocuments(WithoutFile(records, name))
    ensures forall other :: other != name ==>
              (other in IndexedDocuments(WithoutFile(records, name)) <==> other in IndexedDocuments(records))
  {
  }

  /** Whether a record belongs to a file other than `name`. */
  function OtherFile(name: string): Record -> bool {
    (r: Record) => r.filename != name
  }

  /** Deleting a document keeps the other records in their order: they are exactly the filtered table. */
  lemma {:induction false} DeleteKeepsOthers(records: seq<Record>, name: string)
    ensures WithoutFile(records, name) == WithKey(records, OtherFile(name), true)
  {
    if records != [] {
      DeleteKeepsOthers(records[1..], name);
      assert OtherFile(name)(records[0]) == (records[0].filename != name);
    }
  }

  /** Every record a batch inserts belongs to one of its files, under that file's name and kind. */
  lemma {:induction false} BatchRecordsMembers(files: seq<string>, read: string -> RawDocument, nlp: Nlp, rec: Record)
    requires rec in BatchRecords(files, read, nlp)
    ensures exists f :: f in files && rec.filename == BaseName(f) && rec.filetype == KindOfSuffix(f).FileType()
  {
    var init := files[..|files| - 1];
    var f := files[|files| - 1];
    if rec in BatchRecords(init, read, nlp) {
      BatchRecordsMembers(init, read, nlp, rec);
      var g :| g in init && rec.filename == BaseName(g) && rec.filetype == KindOfSuffix(g).FileType();
      assert g in files;
    } else {
      var added := DocumentRecords(BaseName(f), KindOfSuffix(f), read(f), nlp);
      DocumentRecordsShape(BaseName(f), KindOfSuffix(f), read(f), nlp);
      var i :| 0 <= i < |added| && added[i] == rec;
      assert f in files;
    }
  }
}
