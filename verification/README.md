# Retail support chatbot — a Dafny model

The repository holds two desktop support bots that answer questions from a
knowledge base of document paragraphs, plus a stand-alone indexer:

- `index_documents.py` walks the `docs` folder and reads each `.docx` and
  `.pdf` file into paragraphs. A PDF is split into its non-blank lines. It
  tags each paragraph with its most frequent words and the words of its file
  name, and rewrites the TinyDB knowledge base from scratch.
- `support_bot.py` is the Tk bot:
  - It expands a query with synonym groups.
  - It scores each knowledge-base paragraph with fuzzy partial matching,
    keeps the entries at or above a threshold and sorts them by score.
  - It groups the answers by file and highlights the query words in them.
  - It keeps a bounded, duplicate-free history of queries.
- `retail_demo_bot.py` is the Qt app (`RetailSupportBotApp`). It owns a
  paragraph table, synonym groups and a chat history. Its operations are:
  - fuzzy or regex search with file-type and tag filters;
  - uploading one document and batch-indexing a folder, refusing names
    already indexed;
  - deleting a document and the images it saved;
  - adding and deleting synonym groups;
  - listing the indexed documents and all tags.

The model follows the source's own split.

- **Pure code** becomes functions with lemmas:
  - tag generation, paragraph extraction and synonym expansion;
  - the filters, scores, ranking and history update;
  - the spans the highlighter collects.
- **Step-by-step code** becomes methods with loops and invariants, each
  proved equal to a specification function:
  - the query expansion loops;
  - the scan over the paragraph table;
  - the grouping loop that builds a `dict` of lists;
  - the keyword `find` loop;
  - the PDF line loop;
  - the indexer's insert loop.
- **Objects that change in place** become classes whose methods state the
  new state:
  - the Qt app's tables;
  - the Tk history list;
  - the indexer's TinyDB table.

Files:

| file | module | what it holds |
|---|---|---|
| `wrappers.dfy` | `Wrappers` | `Option`, `Result` |
| `text.dfy` | `Text` | `str.strip`, `lower`, `split`, `find`, `\w+` tokens, `sanitize_text` |
| `collections.dfy` | `Collections` | first-seen dedup, filtering by key, stable descending sort, `s[:n]`, `sorted(set(...))` |
| `synonyms.dfy` | `Synonyms` | query expansion (both front ends), parsing and storing synonym groups |
| `tags.dfy` | `Tags` | `Counter.most_common`, both `generate_tags` |
| `extract.dfy` | `Extract` | paragraph extraction from text, Word and PDF sources |
| `grouping.dfy` | `Grouping` | the "group by file name in first-seen order" loop both bots use |
| `search.dfy` | `Search` | the Qt regex and fuzzy scans, ranking |
| `support.dfy` | `Support` | the Tk search, grouping, highlight spans, history, `send_message` |
| `retail.dfy` | `Retail` | the Qt app class and its operations |
| `indexer.dfy` | `Indexer` | `index_documents` |

Outside inputs are parameters of the model:

- `fuzz.partial_ratio` is a `Similarity` function into 0..100.
- `re.compile` is a `Compiler`. It yields a compiled pattern, or `None`
  where it raises `re.error`. A compiled pattern is a line predicate plus
  its number of capturing groups.
- NLTK's `word_tokenize`, `sent_tokenize` and stopword list form an `Nlp`
  value.
- The PDF and Word parsers are functions from a path to page texts or
  paragraph texts.
- The folder listing and the glob result are sequences.
- The file chosen in a dialog, the selected list item and the answer to a
  confirmation box are parameters.

## Model

| member | source | states |
|---|---|---|
| Text.Strip | support_bot.py:74 | `str.strip()`: the result neither starts nor ends with whitespace |
| Text.StripSlice | support_bot.py:74 | the strip is a slice of the input with only whitespace before and after it |
| Text.StripBlank | support_bot.py:74 | the strip is empty exactly when the input is all whitespace, which is when `send_message` ignores it |
| Text.Find | support_bot.py:36 | `str.find`: -1, or an index at or after `start` where the keyword occurs |
| Text.FindFirst | support_bot.py:36 | `find` returns the first occurrence: given any occurrence at or after `start`, the result is found and lies between `start` and it |
| Text.JoinSplit | index_documents.py:29 | `split(sep)` loses nothing: joining the parts with the separator gives back the text |
| Text.TokensOfBlank | support_bot.py:18 | `str.split()` gives no words exactly when the text is blank |
| Text.Sanitize | support_bot.py:54-55 | `sanitize_text`: no leading, trailing or doubled whitespace, every whitespace character a plain space, and the other characters kept in order |
| Synonyms.ExpandQuery | support_bot.py:17-25 | the expansion loop computes the set of the lowered query words plus every group, and its key, that a query word selects by being its key or one of its words |
| Synonyms.AddSelectedGroups | support_bot.py:20-24 | the loop over the synonym keys for one query word adds exactly that word's contribution: the key and group of every matching entry |
| Synonyms.ExpansionHasQueryWords | support_bot.py:18-19 | every query word is a search term |
| Synonyms.ExpansionSymmetric | support_bot.py:20-24 | a query word equal to a key, or inside that key's group, brings in the key and every word of the group |
| Synonyms.MemberExpansion | retail_demo_bot.py:581-586 | in the Qt expansion, a query word inside a group brings in every word of the group |
| Synonyms.ExpansionOnlyFromQuery | support_bot.py:17-25 | a term is a query word, or a word or key of a group that some query word selects; nothing else enters |
| Synonyms.MemberOnlyWithinKeyOrMember | retail_demo_bot.py:581-586 | the Qt expansion (member match only) is contained in the Tk expansion (key or member) |
| Synonyms.MemberOnlyAgreesWhenKeysInGroups | retail_demo_bot.py:860-861 | when every key lies in its own group, which `add_synonym` ensures, both expansions are equal |
| Synonyms.ExpansionNonEmptyWords | support_bot.py:18 | when no group holds the empty word, no term is empty, so `send_message` cannot hang on an empty keyword |
| Synonyms.SplitCommaCount | retail_demo_bot.py:855-856 | a comma-separated input has at least two items exactly when it holds a comma |
| Synonyms.ParseSynonymGroup | retail_demo_bot.py:850-858 | refused as empty exactly when the stripped input is empty; refused for too few words exactly when it has no comma; otherwise one stripped, lowered word per comma-separated item, at least two |
| Synonyms.AddGroup | retail_demo_bot.py:860-861 | the group is stored under its first word, the key is in its own group, every other group is unchanged; "every key in its own group" and, for a group without the empty word, "no empty word" are preserved |
| Synonyms.DeleteGroup | retail_demo_bot.py:874-875 | exactly that key disappears, every other group is unchanged, and "no empty word" is preserved |
| Tags.MostCommon | index_documents.py:16 | `Counter(words).most_common(n)`: at most `n` distinct words of the input, by non-increasing count |
| Tags.MostCommonIsTop | index_documents.py:16 | a word left out means `n` words were taken, each counted at least as often as it |
| Tags.MostCommonTiesInFirstSeenOrder | index_documents.py:16 | words with the same count come in the order they first appear |
| Tags.TagCandidates | index_documents.py:15 | a word is kept exactly when it is not a stopword and is longer than 3 |
| Tags.GenerateTags | index_documents.py:13-17 | at most `top_n` distinct tags, each a `\w+` word of the lowered text, not a stopword, longer than 3 |
| Tags.GenerateTagsAreMostFrequent | index_documents.py:13-17 | a candidate word that is not a tag means `top_n` tags were chosen, each at least as frequent as it |
| Tags.NoCandidatesNoTags | index_documents.py:15-17 | text made only of stopwords and short words gets no tags |
| Tags.AlphaNonStopwords | retail_demo_bot.py:277-278 | a token is kept exactly when it is alphabetic and not a stopword |
| Tags.TopTextWords | retail_demo_bot.py:276-281 | `most_common(5)` over the text's tokens: at most five distinct tokens of the lowered text, each alphabetic and not a stopword |
| Tags.GenerateDocumentTags | retail_demo_bot.py:275-282 | the Qt `generate_tags`: distinct; exactly the `\w+` words of the lowered file name and the top five text words |
| Extract.NonBlankStrippedMembers | index_documents.py:29-31 | a piece's strip is kept exactly when it is not blank |
| Extract.NonBlankStrippedIdempotent | index_documents.py:29-31 | extracting again from extracted chunks changes nothing |
| Extract.LineChunksAreSingleLines | index_documents.py:29-31 | every chunk is a non-blank single line without surrounding whitespace |
| Extract.BlankTextNoLines | index_documents.py:28-31 | a blank page gives no chunks |
| Extract.ExtractPdfText | index_documents.py:23-32 | the nested page/line loop produces exactly the non-blank stripped lines of every page that has text, page by page |
| Extract.PageChunks | index_documents.py:28-31 | the loop over one page's lines yields exactly that page's stripped non-blank lines, in order |
| Extract.PdfLinesAreLines | index_documents.py:23-32 | every chunk is a stripped non-blank line of some page that has text |
| Extract.PdfLinesAppend | index_documents.py:26-31 | the chunks of two runs of pages are the chunks of each, concatenated |
| Extract.ExtractDocxParagraphs | retail_demo_bot.py:259-265 | Word paragraphs are stripped, blank ones dropped, every non-blank one kept, and each kept one is the strip of some Word paragraph |
| Extract.ExtractTxtParagraphs | retail_demo_bot.py:267-273 | every non-blank line of the file is kept, stripped; each kept paragraph is a single line and the strip of some line |
| Extract.LongSentences | retail_demo_bot.py:251-253 | each kept sentence is the strip of a tokenizer sentence longer than 20 characters |
| Extract.LongSentencesComplete | retail_demo_bot.py:251-253 | every sentence longer than 20 characters is kept |
| Extract.ExtractPdfParagraphs | retail_demo_bot.py:240-257 | the Qt PDF paragraphs are stripped |
| Extract.PdfParagraphsSound | retail_demo_bot.py:240-257 | each Qt PDF paragraph is a stripped sentence, longer than 20 characters, of a non-blank blank-line-separated block of a page with text |
| Extract.PdfParagraphsComplete | retail_demo_bot.py:240-257 | every such sentence of every such block is kept |
| Grouping.GroupBy | support_bot.py:85-87 | the groups' keys are the file names in first-seen order, each once, and each group lists exactly that file's results in rank order |
| Grouping.ItemInItsGroup | retail_demo_bot.py:641-646 | every result lands in the group of its file name, and no file name heads two groups |
| Search.NumberedHitsMembers | retail_demo_bot.py:599-612 | a line hit is exactly a 1-based line of the text that the pattern matches, with the record's file, tags and images and score 100 |
| Search.RegexHitsMembers | retail_demo_bot.py:590-612 | the regex hits are exactly the matching lines of records that pass the file-type and tag filters |
| Search.RegexHitShape | retail_demo_bot.py:599-612 | each regex hit scores 100 and carries a line number within its record's lines, the text of that line and its record's metadata |
| Search.RegexScan | retail_demo_bot.py:590-612 | the table/line loop yields exactly the regex hits, and the image set is the union of their images |
| Search.ScanLines | retail_demo_bot.py:599-613 | the loop over one record's lines appends exactly that record's line hits, and the image set stays the images of all hits so far |
| Search.PassesFilters | retail_demo_bot.py:594-597 | file type "All" with no tag passes every record; a record passes exactly when it passes the file-type test and the tag test separately |
| Search.ImagesOfMembers | retail_demo_bot.py:613 | an image path is shown exactly when some hit carries it |
| Search.BestScore | retail_demo_bot.py:623 | `max(...)` over the terms: reached by some term and at least every term's score |
| Search.MaxScore | retail_demo_bot.py:623 | the loop over the expanded terms computes that maximum |
| Search.FuzzyHitsMembers | retail_demo_bot.py:618-636 | a fuzzy hit is exactly a filtered record whose best term score exceeds 70, scored with that best score and without a line number |
| Search.ScoreRecord | retail_demo_bot.py:623-635 | one record is a fuzzy hit, with its best term score, exactly when that score exceeds 70; the image set stays the images of all hits |
| Search.FuzzyScan | retail_demo_bot.py:618-636 | the table loop yields exactly the fuzzy hits and the union of their images |
| Search.Rank | retail_demo_bot.py:638 | `sorted(..., reverse=True)[:10]`: ten hits, or all of them when fewer |
| Search.RankOrdered | retail_demo_bot.py:638 | ranked hits come by non-increasing score |
| Search.RankKeepsBest | retail_demo_bot.py:638 | ranking drops only hits scored no higher than every kept one, and loses or invents nothing |
| Search.RankStable | retail_demo_bot.py:638 | hits with equal scores keep their scan order |
| Support.AnyAtLeastIffBest | support_bot.py:66-67 | some term reaches the threshold exactly when the best term does |
| Support.MatchesMembers | support_bot.py:60-68 | a result is exactly an entry passing the tag and file-type filters with a term at or above the threshold, scored by its best term |
| Support.SearchKnowledgeBase | support_bot.py:57-70 | the loop returns the expanded query's matches sorted by score and cut to `max_results` |
| Support.SearchResults | support_bot.py:57-70 | results come by non-increasing score, at most `max_results`, each an admitted entry at or above the threshold, scored by its best term |
| Support.GroupResults | support_bot.py:85-87 | results are grouped by file in first-seen order, each with its score and sanitized paragraph in rank order |
| Support.OccurrencesDisjoint | support_bot.py:34-40 | one keyword's spans follow each other without overlap |
| Support.OccurrencesCover | support_bot.py:34-40 | every occurrence of the keyword lies inside one of its spans |
| Support.CollectMatches | support_bot.py:31-42 | the keyword loops collect every keyword's `find` spans in the lowered text, sorted |
| Support.ScanKeyword | support_bot.py:34-40 | the `while True` loop for one keyword appends exactly that keyword's `find` spans |
| Support.CollectedSpansSound | support_bot.py:31-42 | every collected span is an occurrence of some keyword |
| Support.CollectedSpansCover | support_bot.py:31-42 | every occurrence of every keyword lies inside a collected span |
| Support.CollectedSpansSorted | support_bot.py:42 | the spans are in tuple order |
| Support.PushedProperties | support_bot.py:115-119 | a known query leaves the history unchanged; a new one goes first, followed by the older ones in order and cut to 20; the history stays duplicate-free and at most 20 long |
| Support.SearchHistory.Add | support_bot.py:115-119 | `add_to_history` updates the list to the pushed history and keeps it valid |
| Support.SendMessage | support_bot.py:72-96 | blank input is ignored and the history kept. Otherwise no results gives "nothing found". Results with the empty word among the expanded terms hang in `highlight_keywords`, before the history is touched. Any other results come grouped by file, with every expanded term as a keyword and each shown paragraph's sorted highlight spans. Every reply but the hang pushes the input onto the history |
| Support.ListOf | support_bot.py:25 | `list(expanded)`: exactly the set's words, each once |
| Support.HighlightParagraphs | support_bot.py:91-93 | the loop over one file's paragraphs computes, for each, the sorted spans of every keyword in its lowered text |
| Support.HighlightGroups | support_bot.py:89-93 | the loop over the groups computes those spans for every paragraph of every group |
| Support.AdmitsFilters | support_bot.py:61-64 | missing or "All" filters admit every entry; an entry passes both filters exactly when it passes each on its own |
| Retail.IndexedDocuments | retail_demo_bot.py:290-291 | the indexed file names, ascending and distinct, are exactly those of the records |
| Retail.AllTags | retail_demo_bot.py:284-288 | the tags, ascending and distinct, are exactly those of some record |
| Retail.BaseName | retail_demo_bot.py:713 | the file name is the part of the path after the last `/` |
| Retail.Suffix | retail_demo_bot.py:765 | `Path.suffix`: empty, or a dot followed by at least one character that ends the name, from a dot that is not the name's first character |
| Retail.LastIndex | retail_demo_bot.py:765 | the index of the last dot of the name, or -1 when it has none: no later character is a dot |
| Retail.BaseNameIsTail | retail_demo_bot.py:713 | the file name is the tail of the path |
| Retail.SuffixKindOnPath | retail_demo_bot.py:719-730 | a path whose lowered suffix is `.pdf` or `.docx` also ends in it, lowered, so the upload test reads it as the same kind |
| Retail.PathKindOnSuffix | retail_demo_bot.py:765-776 | a path the upload test reads as PDF or Word has that suffix exactly when its file name is longer than the extension |
| Retail.KindsAgree | retail_demo_bot.py:765-776 | the `suffix` test of `batch_index` and the `endswith` test of `upload_document` agree, except that a file named only ".pdf" or ".docx" is that kind for the upload and a text file for the batch |
| Retail.MarkupCompiles | retail_demo_bot.py:626-627 | true exactly when, for every expanded term, `\b(term)\b` compiles and has a first group for the template's `\1`; otherwise `re.sub` raises |
| Retail.ScanRecords | retail_demo_bot.py:588-636 | regex mode: an invalid pattern, or the regex hits. Fuzzy mode: an uncaught `re.error` when there is a hit and some expanded term's markup pattern fails to compile or has no first group, or else the fuzzy hits. Every answered scan also returns the images of its hits |
| Retail.DocumentRecordsShape | retail_demo_bot.py:732-740 | one record per paragraph, in order, with the file's name, type and images and the tags of the paragraph and file name |
| Retail.NewFiles | retail_demo_bot.py:751 | a folder file is new exactly when its name is not among the indexed documents |
| Retail.WithoutFile | retail_demo_bot.py:901 | the records kept are exactly those of other files |
| Retail.FileImages | retail_demo_bot.py:890-893 | the images to delete are exactly those of the file's records |
| Retail.RetailApp.Search | retail_demo_bot.py:571-656 | blank query: a warning and no change. Otherwise the stripped query joins the history. An invalid regex gives an error. In fuzzy mode, a hit together with an expanded term whose markup pattern does not compile, or has no first group, raises out of the search after the history was updated. Otherwise the answer is the ranked hits, grouped by file, with every hit's images |
| Retail.RetailApp.InsertParagraphs | retail_demo_bot.py:732-740 | the insert loop appends one record per paragraph, in order |
| Retail.RetailApp.UploadDocument | retail_demo_bot.py:708-745 | nothing changes when no file is chosen or its name is indexed; otherwise exactly its records are appended |
| Retail.RetailApp.IndexFiles | retail_demo_bot.py:762-785 | the per-file loop appends each file's records in turn |
| Retail.RetailApp.BatchIndex | retail_demo_bot.py:747-793 | only the files whose names are not indexed get indexed, in folder order; without any nothing changes |
| Retail.RetailApp.DeleteDocument | retail_demo_bot.py:881-905 | without a selection or confirmation nothing changes; otherwise the file's records are removed and their images returned |
| Retail.RetailApp.AddSynonym | retail_demo_bot.py:849-866 | refused input leaves the groups unchanged; accepted input stores the parsed group under its first word |
| Retail.RetailApp.DeleteSynonym | retail_demo_bot.py:868-879 | without a selection nothing changes; otherwise exactly the selected group is removed |
| Retail.IndexedThenDuplicate | retail_demo_bot.py:713-716 | once a document with paragraphs is indexed, a second upload under its name is refused |
| Retail.DeleteRemovesDocument | retail_demo_bot.py:901 | after deletion the name is no longer listed and every other document still is |
| Retail.DeleteKeepsOthers | retail_demo_bot.py:901 | deletion keeps the other records in their order |
| Retail.BatchRecordsMembers | retail_demo_bot.py:762-785 | every record a batch inserts carries the name and suffix-derived type of one of the batch's files |
| Indexer.EntryTable.Truncate | index_documents.py:37 | `db.truncate()` empties the table |
| Indexer.EntryTable.Insert | index_documents.py:50-54 | `db.insert` appends the entry |
| Indexer.EntryTags | index_documents.py:49-53 | `list(set(tags))`: distinct, at most 10; a tag of the paragraph or of the file name exactly |
| Indexer.ReadParagraphs | index_documents.py:41-46 | `.docx` files go to the Word reader and `.pdf` files to the line chunker |
| Indexer.IndexDocuments | index_documents.py:34-54 | the table ends as exactly the entries of the listed `.docx` and `.pdf` files, file by file, paragraph by paragraph |
| Indexer.IndexFolder | index_documents.py:39-54 | the loop over the folder listing appends the entries of each file in listing order |
| Indexer.InsertParagraphs | index_documents.py:48-54 | the insert loop appends one entry per paragraph, in order |
| Indexer.FileEntriesShape | index_documents.py:39-54 | other files add nothing; otherwise one entry per paragraph with the file name, the paragraph and its tags |
| Indexer.FileParagraphs | index_documents.py:41-46 | the paragraphs of a file are non-blank and stripped, and only `.docx` and `.pdf` files have any |
| Indexer.FolderEntriesFromDocuments | index_documents.py:39-46 | every entry comes from a listed `.docx` or `.pdf` file |

## Left out

- Persistence is not modelled: TinyDB files, the synonym JSON written by
  `add_synonym`/`delete_synonym`, and the FAQ table with its add/edit/delete
  dialogs. Tables and maps are in-memory values.
- Widgets, HTML/Tk rendering, progress bars, message boxes and
  `export_chat` are left out, along with the display loops after grouping
  and `load_history_list`. The model keeps what they show: the outcome
  datatypes, the groups and the highlight spans.
- Search.FuzzyHit: `matched_text` is the record text without the `<b>`
  markup `re.sub` adds. Search.LineHit: it is the plain line without the
  `finditer` markup. The regex markup only decorates the display. The
  fuzzy markup can also fail: `re.sub` compiles every expanded term into
  `\b(term)\b` without escaping it and without a `try`. Two kinds of term
  then raise `re.error` out of `search`, after the query joined the chat
  history. A term such as `?` makes the pattern invalid. A term such as
  `?:x` makes the outer group non-capturing, so the template's `\1` has no
  group to refer to. The model gives both outcomes as `MarkupError`. It checks the
  patterns after the scan instead of at the first hit, which leaves the
  same state behind. What the Qt event loop does with the exception is not
  modelled.
- Support.CollectMatches: the spans are computed, but the Tk widget
  insertion that paints them is not modelled. It requires every keyword to
  be non-empty, because `find` of an empty keyword never advances and the
  source loop would not end.
- Synonyms.ExpandQuery: `list(set(...))` has no defined order, so the
  expansion is a set. Search.MaxScore and Support.SearchKnowledgeBase take
  the maximum over that set, which does not depend on order.
- Indexer.EntryTags: `list(set(tags))` has no defined order either. The
  model keeps first-seen order and proves only membership, distinctness and
  size. Tags.GenerateDocumentTags is treated the same way.
- Tags.MostCommon: for equal counts, `Counter.most_common` keeps
  first-insertion order, and the model proves that order explicitly.
- Text.Lower and the `isalpha`/`\w` character classes cover ASCII only;
  Unicode case mapping is not modelled. Universal-newline translation of
  `\r` when reading text files is not modelled either.
- Retail.BaseName: trailing separators and Windows `\` separators are not
  handled.
- Images are not extracted. `extract_from_pdf`/`extract_from_docx` and the
  `uuid` names are replaced by the image paths a `RawDocument` carries, and
  `os.remove` by returning the image set to delete.
- Reader exceptions in the Qt app are folded into the parser parameters.
  There, a `try`/`except` around each PDF, Word and text reader turns an
  error into an empty result.
- Indexer.IndexDocuments: reader exceptions are not modelled. The
  indexer script has no `try`/`except` around `extract_docx_text` or
  `extract_pdf_text`. A reader that raises would abort the script after
  `db.truncate()`, leaving the table empty or holding only the files
  before it. The model's readers always return.
- Support.SendMessage: the hang on an empty keyword is a reply value,
  `Hangs`. The text already shown before the loop never ends is not
  modelled.
- `re.compile`, `partial_ratio`, `word_tokenize` and `sent_tokenize` are
  parameters, not definitions. Only the way their results are used is
  modelled.
- Retail.RetailApp.DeleteSynonym requires the selected key to be present.
  The list view only offers existing keys, so the `KeyError` path of `del`
  cannot be reached from the UI.
- Support entries always carry a `tags` list, covering the `.get('tags', [])`
  default. The indexer always writes one.
- The Qt `chat_history` grows without bound and may repeat queries, as in
  the source. The Tk history bound applies to the Tk bot only.
