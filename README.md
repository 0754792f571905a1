# Persona-driven section ranking, modelled in Dafny

The system reads a job description (a persona, a task, and a list of PDF documents). Each PDF comes
with a JSON outline of its headings. The system then writes a report of the sections and paragraphs
most relevant to the persona's job. This project models its core, in the program's own terms:

- **`ContentExtractor`** (`extractor.dfy`, module `Extractor`):
  - the page count of a PDF;
  - the text of a page range, with pages joined by blank lines;
  - `extract_meaningful_headings`. It puts the document title first, keeps the outline entries that
    pass five quality checks, and gives every entry an `end_page`: the next entry's page minus one,
    or the page count for the last entry.
- **`SemanticRanker` and `SectionProcessor`** (`ranker.dfy`, module `Ranker`):
  - the context sentence `As a <persona>, <job>`;
  - `rank_items`, which scores every item against the context and orders the items best first;
  - `process_document`, which ranks a document's meaningful headings by their text plus the first
    50 characters of their start page;
  - `extract_subsections`, which cuts a section's text into paragraphs line by line, filters the
    paragraphs by length and boilerplate words, and ranks them.
- **The driver `main`** (`pipeline.dfy`, module `Pipeline`):
  - collects the ranked sections of every document whose outline and PDF both exist;
  - sorts them by score and keeps the best `TOP_SECTIONS`;
  - writes one `extracted_sections` entry per kept section, ranked 1, 2, …;
  - writes, per kept section, at most `TOP_SUBSECTIONS` whitespace-normalised and deduplicated
    paragraphs into `subsection_analysis`.
- **Supporting modules:**
  - `Config` (`config.dfy`) holds the constants of `src/config.py`;
  - `Text` (`text.dfy`) holds Python's string primitives that the pipeline relies on:
    - `str.isspace`;
    - `strip`;
    - `split('\n')`;
    - `re.sub(r'\s+', ' ', s).strip()`;
  - `Sorting` (`sorting.dfy`) holds a stable sort by a real-valued key, highest first;
  - `Collections` (`collections.dfy`) holds `Option`, slicing, list comprehension filters and `join`.

The loops of the source are methods proved against specification functions:

| loop | method | specification function |
|---|---|---|
| page join | `ExtractSectionContent` | `SectionText` |
| heading filter | `CollectCandidates` | — |
| end-page assignment | `FillEndPages` | — |
| paragraph state machine | `SegmentLines` | `Feed` over `Step` |
| document loop | `CollectSections` | `Collected` |
| report loop | `BuildReport` | `Extracted` and `Analysis` |
| deduplication loop | `AddSubsections` | `SubsectionEntries` |

The properties are lemmas about those functions.

Two things the system calls are parameters of the model:

- **The embedding model** is an `Embedder`. It gives the similarity of a text to the context sentence,
  which is what `encode` followed by `cosine_similarity` computes. It also says whether encoding a
  batch raises.
- **The file system** is two maps keyed by document file name:
  - from a name to its outline;
  - from a name to its PDF, which is either the list of its page texts or a file that cannot be opened.

## Model

| member | source | states |
|---|---|---|
| Collections.Filter | src/extractor.py:55-62 | The kept elements are exactly the input elements that pass the test. |
| Collections.FilterIsSubseq | src/ranker.py:103-107 | Filtering keeps the survivors in their original relative order. |
| Collections.JoinConcat | src/extractor.py:36 | Joining two lists is joining each, separated once by the separator. |
| Text.Strip | src/ranker.py:79 | The result has no whitespace at either end. It is empty exactly when the input is all whitespace. |
| Text.StripRemovesOnlyWhitespace | src/ranker.py:79 | `strip` returns a contiguous infix of the input. Everything before and after the infix is whitespace, and the non-whitespace characters are unchanged. |
| Text.SplitLines | src/ranker.py:78 | `split('\n')` gives at least one piece and no piece contains a newline. Joining the pieces with newlines gives back the input. |
| Text.Normalize | src/process_documents.py:150 | The clean text is stripped, uses only single spaces as whitespace and keeps the input's non-whitespace characters in order. It is empty exactly when the input is all whitespace. |
| Text.NormalizeIsCollapseThenStrip | src/process_documents.py:150 | The normal form equals `strip` applied to the independent definition of `re.sub(r'\s+', ' ', s)`. |
| Sorting.SortByKeyDesc | src/process_documents.py:100 | The sorted list is a permutation of the input with non-increasing scores. Equal scores keep their input order (stable, as `list.sort(reverse=True)`). |
| Extractor.ExtractSectionContent | src/extractor.py:22-39 | Pages `start_page` to `min(end_page, page count)` are joined by blank lines. The result is "" when the file cannot be opened or a page index is invalid. |
| Extractor.SectionTextDefaultsToStartPage | src/extractor.py:26-27 | A missing end page reads only the start page. |
| Extractor.SectionTextSinglePage | src/extractor.py:30-36 | A one-page range that exists returns that page's text verbatim. |
| Extractor.SectionTextEmpty | src/extractor.py:30-39 | The result is "" for an unreadable file, a start page before page 1, or an empty range. |
| Extractor.SectionTextSplits | src/extractor.py:30-36 | A page range reads as its two halves joined by a blank line, so each page appears once, in page order. |
| Extractor.MeaningfulHeadings | src/extractor.py:42-71 | The title entry comes first, then the kept entries in outline order, each unchanged except for `end_page`. Each `end_page` is the next entry's page minus one, and the last entry's is the page count. |
| Extractor.TitledWithEndPages | src/extractor.py:47-69 | The title followed by the kept entries, with end pages written, keeps their order and their other fields, and the end pages chain from entry to entry. |
| Extractor.EndPageChain | src/extractor.py:64-69 | Each end page is the following entry's own page minus one, and the last is the page count. |
| Extractor.WithEndPages | src/extractor.py:64-69 | Entry `i` becomes the input entry with `end_page` set by the next-entry rule. |
| Extractor.ExtractMeaningfulHeadings | src/extractor.py:42-71 | The two in-place loops return exactly `MeaningfulHeadings` of the outline and page count. |
| Extractor.CollectCandidates | src/extractor.py:47-62 | The first loop yields the title entry followed by the entries that pass the filter. |
| Extractor.FillEndPages | src/extractor.py:64-69 | The second loop writes every entry's `end_page` by the next-entry rule. |
| Extractor.MeaningfulHeadingsPassChecks | src/extractor.py:55-62 | Every entry after the title passes all five quality checks. |
| Extractor.KeptEntriesInOutlineOrder | src/extractor.py:55-62 | The kept entries are a subsequence of the outline, and an outline entry is kept exactly when it passes the checks. |
| Extractor.MinHeadingLengthBoundary | src/extractor.py:57-61 | `MIN_HEADING_LENGTH` is inclusive: every text shorter than five characters is rejected, and every five-character text that passes the other four checks is kept. |
| Ranker.RankItems | src/ranker.py:35-45 | No items give an empty ranking. Otherwise the result is absent exactly when encoding the batch raises. If present, it is a permutation of `Scored` (each item paired with its text's similarity to the query), best first. |
| Ranker.RankedPairsAreScoredItems | src/ranker.py:35-45 | Each ranked pair is an input item with its own score, and every input item is ranked. |
| Ranker.HeadingTextReadsStartPage | src/ranker.py:63 | The text a heading is ranked by is its text, a space, and at most the first 50 characters of its start page. It is the text and a space alone when that page cannot be read. |
| Ranker.ProcessDocument | src/ranker.py:51-68 | The result is empty exactly when encoding the headings fails. Otherwise it is a permutation of `Scored` for the meaningful headings against `ContextString` (the sentence `As a <persona>, <job>`), best first. |
| Ranker.LeadingDigits | src/ranker.py:90 | It counts the maximal run of leading digits, as `\d+` matches it. |
| Ranker.NonBlank | src/ranker.py:78-84 | The stripped non-blank lines are non-empty and stripped. |
| Ranker.StepWellFormed | src/ranker.py:79-97 | One loop iteration keeps every closed paragraph and `current_para` stripped, and closed paragraphs non-empty. |
| Ranker.StepKeepsText | src/ranker.py:79-97 | One iteration adds exactly the line's stripped text, if any, to the space-joined paragraphs. |
| Ranker.FeedWellFormed | src/ranker.py:75-97 | The whole line loop keeps the paragraph state well formed. |
| Ranker.FeedKeepsText | src/ranker.py:75-100 | After the loop and the final flush, the space-joined paragraphs equal the space-joined non-blank stripped lines. |
| Ranker.ParagraphsAreStripped | src/ranker.py:75-100 | Every paragraph is non-empty with no whitespace at either end. |
| Ranker.ParagraphsKeepText | src/ranker.py:75-100 | No text is invented or lost by the paragraph split. |
| Ranker.LineStartsParagraphExactlyWhen | src/ranker.py:90-97 | A non-blank line opens a new paragraph exactly when it is a list item, an all-caps line, or follows a paragraph over 200 characters (or no paragraph is open). Otherwise it extends the open paragraph after one space. |
| Ranker.SegmentLines | src/ranker.py:75-97 | The line loop, with its `continue`, ends in the state `Feed` describes. |
| Ranker.Chunks | src/ranker.py:103-107 | The valid chunks are exactly the paragraphs of length 51 to 999 without "copyright", "page" or "confidential" in any case. |
| Ranker.ChunksInParagraphOrder | src/ranker.py:103-107 | Valid chunks keep paragraph order. |
| Ranker.SubsectionRanking | src/ranker.py:70-123 | Empty content gives nothing. There are at most as many results as valid chunks, best first. |
| Ranker.SubsectionRankingOutcome | src/ranker.py:103-123 | With content, the result is empty exactly when there is no valid chunk or encoding the chunks raises. A non-empty result is a permutation of `Scored` for the valid chunks against the context, so it holds every valid chunk exactly once. |
| Ranker.SubsectionsAreValidChunks | src/ranker.py:103-123 | Every returned chunk is a valid paragraph of the content, scored against the context. |
| Ranker.SubsectionsRankEveryChunk | src/ranker.py:109-123 | When encoding succeeds, every valid chunk is returned with its score. |
| Ranker.ExtractSubsections | src/ranker.py:70-123 | The method returns exactly `SubsectionRanking` of the content. |
| Pipeline.Tag | src/process_documents.py:92-97 | Each ranked section of a document becomes an entry with that document's name and its own score, in order. |
| Pipeline.CollectedFromPresentDocuments | src/process_documents.py:57-97 | Every collected section comes from a listed document whose outline and PDF both exist, with its ranked score. |
| Pipeline.MissingDocumentContributesNothing | src/process_documents.py:71-77 | A document without an outline or a PDF adds nothing to `all_sections`. |
| Pipeline.CollectSections | src/process_documents.py:57-97 | The document loop builds exactly `Collected` of the listed documents. |
| Pipeline.AppendSections | src/process_documents.py:92-97 | Appending a document's sections tags each one with the document, in ranked order. |
| Pipeline.TopSections | src/process_documents.py:100-101 | The kept sections are the first `min(TOP_SECTIONS, n)` of the sections sorted best first. |
| Pipeline.TopSectionsAreTheBest | src/process_documents.py:100-101 | The kept sections come from the input, best first. No left-out section scores above the lowest kept one, and a non-empty input keeps at least one section. |
| Pipeline.TopSectionsKeepTieOrder | src/process_documents.py:100 | Sections with equal scores keep the document order they were collected in. |
| Pipeline.UniqueNonEmpty | src/process_documents.py:143-152 | The kept texts are non-empty, come from the input and are pairwise distinct. |
| Pipeline.UniqueNonEmptyComplete | src/process_documents.py:151-152 | Every non-empty input text is kept once. |
| Pipeline.UniqueNonEmptyExtends | src/process_documents.py:145-158 | Seeing more texts only appends to the kept list. |
| Pipeline.UniqueNonEmptyInOrder | src/process_documents.py:145-158 | Kept texts appear in ranked order. |
| Pipeline.RefinedTextsAt | src/process_documents.py:150 | The i-th clean text is the normal form of the i-th ranked chunk. |
| Pipeline.EntriesAppend | src/process_documents.py:153-157 | Appending a clean text appends one entry with the section's document and start page. |
| Pipeline.SubsectionEntries | src/process_documents.py:143-158 | A section gets at most `TOP_SUBSECTIONS` subsection entries. |
| Pipeline.SubsectionEntriesFacts | src/process_documents.py:143-158 | A section's entries carry its document and start page. Their texts are non-empty, stripped, single-spaced, each the normal form of a ranked chunk, and pairwise distinct. |
| Pipeline.SubsectionEntriesInRankedOrder | src/process_documents.py:145-158 | The entries are the first kept clean texts, in ranked order. |
| Pipeline.SubsectionEntriesBelowCapKeepAll | src/process_documents.py:146-147 | Below the cap, every distinct non-empty clean text is among the entries. |
| Pipeline.CappedKeepsAll | src/process_documents.py:146-147 | Below the cap, every non-empty text is among the first `cap` kept. |
| Pipeline.KeptIsCapped | src/process_documents.py:146-147 | Stopping at the cap, or at the end of the input, leaves exactly the first `cap` kept texts. |
| Pipeline.AddSubsections | src/process_documents.py:143-158 | The dedup loop with its `break` produces exactly `SubsectionEntries`. |
| Pipeline.ExtractedRanksRunFromOne | src/process_documents.py:117-132 | Entry i of `extracted_sections` has rank i + 1 and the document, title and start page of kept section i. |
| Pipeline.BlocksBounded | src/process_documents.py:117-158 | Sections that each add at most `cap` entries add at most `cap` times their number. |
| Pipeline.BlocksMembers | src/process_documents.py:117-158 | Every `subsection_analysis` entry was added while processing some kept section. |
| Pipeline.SectionSubsectionsBelongToSection | src/process_documents.py:119-158 | The entries added for a section carry its document and start page. |
| Pipeline.SectionReport | src/process_documents.py:119-158 | One iteration reads the section's pages and adds exactly `SectionSubsections` of it. |
| Pipeline.BuildReport | src/process_documents.py:117-158 | The report loop builds exactly `Extracted` and `Analysis` of the kept sections. |
| Pipeline.ProcessJob | src/process_documents.py:57-158 | `main` produces exactly `JobReport` of the inputs. |
| Pipeline.JobReportSections | src/process_documents.py:101-132 | The report lists every input document and holds `min(TOP_SECTIONS, n)` extracted sections. They are ranked 1, 2, …, each from a document whose outline and PDF exist. |
| Pipeline.JobReportSubsections | src/process_documents.py:117-158 | At most `TOP_SUBSECTIONS` entries per extracted section. Each entry carries the document and start page of an extracted section. |
| Pipeline.ReportSubsections | src/process_documents.py:117-158 | The bound and the membership above, for any list of kept sections. |

## Left out

- Model loading with its fallback model and `sys.exit` (`load_model_with_fallback`) is not modelled. The model is the `Embedder` parameter.
- Embeddings are parameters, not floating-point vectors. The `Embedder` gives each text's similarity to the context as a `real`, and reports whether encoding a batch raises. `cosine_similarity` and float rounding are not modelled.
- The context sentence's own encoding is outside the `try` in the source, so its failure aborts the whole run. The model treats the context encoding as always succeeding.
- `rank_items` orders by `np.argsort(...)[::-1]`, whose order among equal scores numpy does not fix. The model orders equal scores stably. `Ranker.RankItems` promises only a permutation in non-increasing order, which holds for any tie order.
- A page index outside the document is modelled as a failure of `load_page`, so `extract_section_content` returns "". The model ignores PyMuPDF's reading of a negative index as counting from the end. Only a start page below 1 is affected.
- `isupper`, `lower` and `\d` are read over ASCII letters and digits. Python's `str.isspace` and `\s` are modelled over their full Unicode sets.
- The outline is looked up under the document's file name. In the source it lives at `<stem>.json`; the map stands for that lookup.
- Malformed JSON, the missing input file, and I/O errors are not modelled. Neither are writing `output.json`, logging, timing or the processing timestamp. The report's metadata keeps the document list, persona and job.
- `process_document` returns early when there are no headings. That guard is dead, because the title entry is always present, so the model has no such branch.
- The source updates the outline's heading dictionaries and the `all_sections` list in place. The model works on values: `end_page` is written into a new heading, and the sort returns a new list. Aliasing between the outline and the returned headings is not captured.
- A PDF missing at report time reads as a file that cannot be opened. The document loop skips such documents, so no kept section refers to one.
- `Extractor.TotalPages`: `get_total_pages` is a total function with no contract of its own. Its value appears in `MeaningfulHeadings` as the last entry's end page.
- `Config.MAX_SECTION_LENGTH` and the model and directory paths in `src/config.py` are not used by the core and are not modelled. `src/utils.py` is not part of this model.
