/**
 * The body of `main`: rank the sections of every document, keep the best ones across documents,
 * and write for each of them a numbered entry and its distinct refined paragraphs.
 *
 * The input directory is two maps keyed by document file name: the outline found for that
 * document and the PDF file (a file that exists but cannot be opened is `Unreadable`).
 */
module Pipeline {
  import opened Collections
  import opened Text
  import opened Sorting
  import opened Extractor
  import opened Ranker
  import Config

  /** One entry of `all_sections`. */
  datatype SectionResult = SectionResult(document: string, section: Heading, score: real)

  /** One entry of `extracted_sections`. */
  datatype ExtractedSection = ExtractedSection(document: string, sectionTitle: string, importanceRank: int, pageNumber: int)

  /** One entry of `subsection_analysis`. */
  datatype SubsectionEntry = SubsectionEntry(document: string, refinedText: string, pageNumber: int)

  /** The written output, without the processing timestamp. */
  datatype Report = Report(
    inputDocuments: seq<string>,
    persona: string,
    job: string,
    extractedSections: seq<ExtractedSection>,
    subsectionAnalysis: seq<SubsectionEntry>)

  function SectionScore(s: SectionResult): real { s.score }

  // ---------------------------------------------------------------------------------------------
  // Collecting the sections of all documents

  /** A document's ranked sections, each tagged with the document's name. */
  function Tag(document: string, sections: seq<(Heading, real)>): (r: seq<SectionResult>)
    ensures |r| == |sections|
    ensures forall i :: 0 <= i < |r| ==> r[i] == SectionResult(document, sections[i].0, sections[i].1)
  {
    if sections == [] then []
    else Tag(document, sections[..|sections| - 1]) + [SectionResult(document, sections[|sections| - 1].0, sections[|sections| - 1].1)]
  }

  /** What one document contributes: nothing when its outline or its PDF is missing. */
  function Contribution(document: string, outlines: map<string, Outline>, pdfs: map<string, PdfFile>,
                        persona: string, job: string, emb: Embedder): seq<SectionResult>
  {
    if document in outlines && document in pdfs then
      Tag(document, ProcessDocument(pdfs[document], outlines[document], persona, job, emb))
    else []
  }

  /** `all_sections` after the document loop has seen `documents`. */
  function Collected(documents: seq<string>, outlines: map<string, Outline>, pdfs: map<string, PdfFile>,
                     persona: string, job: string, emb: Embedder): seq<SectionResult>
  {
    if documents == [] then []
    else
      Collected(documents[..|documents| - 1], outlines, pdfs, persona, job, emb)
      + Contribution(documents[|documents| - 1], outlines, pdfs, persona, job, emb)
  }

  /**
   * Every collected section comes from a listed document whose outline and PDF both exist, and is one
   * of that document's ranked sections with its own score.
   */
  lemma {:induction false} CollectedFromPresentDocuments(documents: seq<string>, outlines: map<string, Outline>,
      pdfs: map<string, PdfFile>, persona: string, job: string, emb: Embedder)
    ensures forall r :: r in Collected(documents, outlines, pdfs, persona, job, emb) ==>
      && r.document in documents && r.document in outlines && r.document in pdfs
      && (r.section, r.score) in ProcessDocument(pdfs[r.document], outlines[r.document], persona, job, emb)
  {
    if documents != [] {
      var init := documents[..|documents| - 1];
      var d := documents[|documents| - 1];
      CollectedFromPresentDocuments(init, outlines, pdfs, persona, job, emb);
      ContributionFacts(d, outlines, pdfs, persona, job, emb);
      forall r | r in Collected(documents, outlines, pdfs, persona, job, emb)
        ensures && r.document in documents && r.document in outlines && r.document in pdfs
          && (r.section, r.score) in ProcessDocument(pdfs[r.document], outlines[r.document], persona, job, emb)
      {
        if r !in Contribution(d, outlines, pdfs, persona, job, emb) {
          assert r in Collected(init, outlines, pdfs, persona, job, emb);
          assert r.document in documents;
        }
      }
    }
  }

  /** A document's sections are tagged with its name and come from its own ranking. */
  lemma ContributionFacts(d: string, outlines: map<string, Outline>, pdfs: map<string, PdfFile>,
                          persona: string, job: string, emb: Embedder)
    ensures forall r :: r in Contribution(d, outlines, pdfs, persona, job, emb) ==>
      && r.document == d && d in outlines && d in pdfs
      && (r.section, r.score) in ProcessDocument(pdfs[d], outlines[d], persona, job, emb)
  {
    if d in outlines && d in pdfs {
      var sections := ProcessDocument(pdfs[d], outlines[d], persona, job, emb);
      var c := Tag(d, sections);
      forall r | r in c ensures r.document == d && (r.section, r.score) in sections {
        var i :| 0 <= i < |c| && c[i] == r;
        assert sections[i] == (r.section, r.score);
      }
    }
  }

  /** A document without an outline or without a PDF adds no section. */
  lemma MissingDocumentContributesNothing(documents: seq<string>, d: string, outlines: map<string, Outline>,
      pdfs: map<string, PdfFile>, persona: string, job: string, emb: Embedder)
    requires d !in outlines || d !in pdfs
    ensures Collected(documents + [d], outlines, pdfs, persona, job, emb) == Collected(documents, outlines, pdfs, persona, job, emb)
  {
    assert (documents + [d])[..|documents|] == documents;
  }

  /** The document loop of `main`: skips documents with a missing file and appends the rest's sections. */
  method CollectSections(documents: seq<string>, outlines: map<string, Outline>, pdfs: map<string, PdfFile>,
                         persona: string, job: string, emb: Embedder) returns (all: seq<SectionResult>)
    ensures all == Collected(documents, outlines, pdfs, persona, job, emb)
  {
    all := [];
    for d := 0 to |documents|
      invariant all == Collected(documents[..d], outlines, pdfs, persona, job, emb)
    {
      assert documents[..d + 1][..d] == documents[..d];
      var filename := documents[d];
      if filename !in outlines {
        continue;
      }
      if filename !in pdfs {
        continue;
      }
      var sections := ProcessDocument(pdfs[filename], outlines[filename], persona, job, emb);
      all := AppendSections(all, filename, sections);
    }
    assert documents[..|documents|] == documents;
  }

  /** The inner loop over one document's sections: appends each of them, tagged with the document. */
  method AppendSections(all: seq<SectionResult>, document: string, sections: seq<(Heading, real)>) returns (all': seq<SectionResult>)
    ensures all' == all + Tag(document, sections)
  {
    all' := all;
    for s := 0 to |sections|
      invariant all' == all + Tag(document, sections[..s])
    {
      assert sections[..s + 1][..s] == sections[..s];
      all' := all' + [SectionResult(document, sections[s].0, sections[s].1)];
    }
    assert sections[..|sections|] == sections;
  }

  // ---------------------------------------------------------------------------------------------
  // Ranking across documents

  /** `all_sections.sort(key=score, reverse=True)[:TOP_SECTIONS]`. */
  function TopSections(all: seq<SectionResult>): (top: seq<SectionResult>)
    ensures |top| == Min(Config.TopSections, |all|)
    ensures top == SortByKeyDesc(all, SectionScore)[..|top|]
  {
    Take(SortByKeyDesc(all, SectionScore), Config.TopSections)
  }

  /**
   * The kept sections are sections of the input, best first, and no section left out scores higher
   * than the lowest kept one.
   */
  lemma TopSectionsAreTheBest(all: seq<SectionResult>)
    ensures var top := TopSections(all);
      && NonIncreasing(top, SectionScore)
      && (forall t :: t in top ==> t in all)
      && (forall x :: x in all && top != [] && SectionScore(x) > SectionScore(top[|top| - 1]) ==> x in top)
      && (all != [] ==> top != [])
  {
    var sorted := SortByKeyDesc(all, SectionScore);
    var top := TopSections(all);
    forall t | t in top ensures t in all {
      assert t in multiset(sorted);
    }
    forall x | x in all && top != [] && SectionScore(x) > SectionScore(top[|top| - 1]) ensures x in top {
      assert x in multiset(sorted);
      var j :| 0 <= j < |sorted| && sorted[j] == x;
      assert top[j] == x;
    }
  }

  /** Sections with equal scores keep the order in which the documents produced them. */
  lemma TopSectionsKeepTieOrder(all: seq<SectionResult>)
    ensures forall v :: KeyClass(SortByKeyDesc(all, SectionScore), SectionScore, v) == KeyClass(all, SectionScore, v)
  {
  }

  // ---------------------------------------------------------------------------------------------
  // Refined subsections of one section

  /** The texts kept from `xs`: the non-empty ones, each only the first time it occurs. */
  function UniqueNonEmpty(xs: seq<string>): (r: seq<string>)
    ensures forall i :: 0 <= i < |r| ==> r[i] != "" && r[i] in xs
    ensures forall i, j :: 0 <= i < j < |r| ==> r[i] != r[j]
  {
    if xs == [] then []
    else
      var init := UniqueNonEmpty(xs[..|xs| - 1]);
      var c := xs[|xs| - 1];
      assert forall x :: x in xs[..|xs| - 1] ==> x in xs;
      if c != "" && c !in init then init + [c] else init
  }

  /** Every non-empty text of the input is kept. */
  lemma {:induction false} UniqueNonEmptyComplete(xs: seq<string>)
    ensures forall x :: x in xs && x != "" ==> x in UniqueNonEmpty(xs)
  {
    if xs != [] {
      UniqueNonEmptyComplete(xs[..|xs| - 1]);
      forall x | x in xs && x != "" ensures x in UniqueNonEmpty(xs) {
        if x != xs[|xs| - 1] {
          assert x in xs[..|xs| - 1];
        }
      }
    }
  }

  /** Reading more texts only appends to what was kept. */
  lemma {:induction false} UniqueNonEmptyExtends(xs: seq<string>, more: seq<string>)
    ensures |UniqueNonEmpty(xs)| <= |UniqueNonEmpty(xs + more)|
    ensures UniqueNonEmpty(xs) == UniqueNonEmpty(xs + more)[..|UniqueNonEmpty(xs)|]
    decreases |more|
  {
    if more != [] {
      var longer := xs + more[..|more| - 1];
      UniqueNonEmptyExtends(xs, more[..|more| - 1]);
      assert (xs + more)[..|xs + more| - 1] == longer;
      var u := UniqueNonEmpty(xs);
      var v := UniqueNonEmpty(longer);
      var w := UniqueNonEmpty(xs + more);
      assert w[..|v|] == v;
      assert v[..|u|] == u;
      assert w[..|u|] == w[..|v|][..|u|];
    } else {
      assert xs + more == xs;
    }
  }

  /** Kept texts appear in the order in which they first occur. */
  lemma {:induction false} UniqueNonEmptyInOrder(xs: seq<string>)
    ensures IsSubseq(UniqueNonEmpty(xs), xs)
  {
    if xs != [] {
      var init := xs[..|xs| - 1];
      UniqueNonEmptyInOrder(init);
      var u := UniqueNonEmpty(xs);
      if u != UniqueNonEmpty(init) {
        assert u[..|u| - 1] == UniqueNonEmpty(init);
      }
    }
  }

  /** `re.sub(r'\s+', ' ', sub).strip()` of each ranked chunk, in ranked order. */
  function RefinedTexts(subsections: seq<(string, real)>): (r: seq<string>)
    ensures |r| == |subsections|
  {
    if subsections == [] then []
    else RefinedTexts(subsections[..|subsections| - 1]) + [Normalize(subsections[|subsections| - 1].0)]
  }

  lemma {:induction false} RefinedTextsAt(subsections: seq<(string, real)>, i: int)
    requires 0 <= i < |subsections|
    ensures RefinedTexts(subsections)[i] == Normalize(subsections[i].0)
  {
    var init := subsections[..|subsections| - 1];
    var last := Normalize(subsections[|subsections| - 1].0);
    assert RefinedTexts(subsections) == RefinedTexts(init) + [last];
    if i < |subsections| - 1 {
      RefinedTextsAt(init, i);
      assert init[i] == subsections[i];
    }
  }

  /** The entries for a list of refined texts. */
  function Entries(document: string, page: int, texts: seq<string>): (r: seq<SubsectionEntry>)
    ensures |r| == |texts|
    ensures forall i :: 0 <= i < |r| ==> r[i] == SubsectionEntry(document, texts[i], page)
  {
    seq(|texts|, i requires 0 <= i < |texts| => SubsectionEntry(document, texts[i], page))
  }

  lemma EntriesAppend(document: string, page: int, texts: seq<string>, c: string)
    ensures Entries(document, page, texts + [c]) == Entries(document, page, texts) + [SubsectionEntry(document, c, page)]
  {
  }

  /** What the inner loop of `main` appends for one section. */
  function SubsectionEntries(document: string, page: int, subsections: seq<(string, real)>): (r: seq<SubsectionEntry>)
    ensures |r| <= Config.TopSubsections
  {
    Entries(document, page, Take(UniqueNonEmpty(RefinedTexts(subsections)), Config.TopSubsections))
  }

  /**
   * At most `TOP_SUBSECTIONS` entries per section, all carrying the section's document and start
   * page; each refined text is non-empty, stripped, single-spaced, the normal form of one of the
   * chunks, and different from the other texts of the same section.
   */
  lemma SubsectionEntriesFacts(document: string, page: int, subsections: seq<(string, real)>)
    ensures var r := SubsectionEntries(document, page, subsections);
      && |r| <= Config.TopSubsections
      && (forall i :: 0 <= i < |r| ==> r[i].document == document && r[i].pageNumber == page)
      && (forall i :: 0 <= i < |r| ==>
            && r[i].refinedText != ""
            && IsStripped(r[i].refinedText)
            && (forall k :: 0 <= k < |r[i].refinedText| - 1 ==>
                  !(IsSpace(r[i].refinedText[k]) && IsSpace(r[i].refinedText[k + 1])))
            && exists s :: s in subsections && r[i].refinedText == Normalize(s.0))
      && (forall i, j :: 0 <= i < j < |r| ==> r[i].refinedText != r[j].refinedText)
  {
    var refined := RefinedTexts(subsections);
    var u := UniqueNonEmpty(refined);
    var r := SubsectionEntries(document, page, subsections);
    forall i | 0 <= i < |r|
      ensures && r[i].refinedText != ""
        && IsStripped(r[i].refinedText)
        && (forall k :: 0 <= k < |r[i].refinedText| - 1 ==>
              !(IsSpace(r[i].refinedText[k]) && IsSpace(r[i].refinedText[k + 1])))
        && exists s :: s in subsections && r[i].refinedText == Normalize(s.0)
    {
      assert r[i].refinedText == u[i];
      assert u[i] in refined;
      var j :| 0 <= j < |refined| && refined[j] == u[i];
      RefinedTextsAt(subsections, j);
      assert subsections[j] in subsections;
    }
  }

  /** The subsection entries follow the ranked order of the chunks: they are the first kept texts, in order. */
  lemma SubsectionEntriesInRankedOrder(document: string, page: int, subsections: seq<(string, real)>)
    ensures var refined := RefinedTexts(subsections);
      var r := SubsectionEntries(document, page, subsections);
      && IsSubseq(UniqueNonEmpty(refined), refined)
      && (forall i :: 0 <= i < |r| ==> r[i].refinedText == UniqueNonEmpty(refined)[i])
  {
    UniqueNonEmptyInOrder(RefinedTexts(subsections));
  }

  /** Every distinct non-empty refined text is among the entries unless the cap was reached first. */
  lemma SubsectionEntriesBelowCapKeepAll(document: string, page: int, subsections: seq<(string, real)>)
    ensures var refined := RefinedTexts(subsections);
      var r := SubsectionEntries(document, page, subsections);
      |r| < Config.TopSubsections ==>
        forall i :: 0 <= i < |refined| && refined[i] != "" ==> exists k :: 0 <= k < |r| && r[k].refinedText == refined[i]
  {
    var refined := RefinedTexts(subsections);
    CappedKeepsAll(refined, Config.TopSubsections);
  }

  /** Below the cap, every non-empty text of the input is among the first `cap` kept. */
  lemma CappedKeepsAll(xs: seq<string>, cap: nat)
    ensures var t := Take(UniqueNonEmpty(xs), cap);
      |t| < cap ==> forall i :: 0 <= i < |xs| && xs[i] != "" ==> exists k :: 0 <= k < |t| && t[k] == xs[i]
  {
    var u := UniqueNonEmpty(xs);
    var t := Take(u, cap);
    UniqueNonEmptyComplete(xs);
    if |t| < cap {
      assert t == u;
      forall i | 0 <= i < |xs| && xs[i] != "" ensures exists k :: 0 <= k < |t| && t[k] == xs[i] {
        assert xs[i] in u;
      }
    }
  }

  /** One more text is kept exactly when it is non-empty and not kept yet. */
  lemma UniqueNonEmptyStep(xs: seq<string>, c: string)
    ensures UniqueNonEmpty(xs + [c]) == if c != "" && c !in UniqueNonEmpty(xs) then UniqueNonEmpty(xs) + [c] else UniqueNonEmpty(xs)
  {
    assert (xs + [c])[..|xs|] == xs;
  }

  /** The kept texts after one more text of `xs` is read. */
  lemma KeepStep(xs: seq<string>, j: nat, kept: seq<string>, c: string)
    requires j < |xs| && kept == UniqueNonEmpty(xs[..j]) && c == xs[j]
    ensures UniqueNonEmpty(xs[..j + 1]) == if c != "" && c !in kept then kept + [c] else kept
  {
    assert xs[..j + 1] == xs[..j] + [c];
    UniqueNonEmptyStep(xs[..j], c);
  }

  /**
   * Once `cap` texts are kept, or all texts are read, the kept texts are the first `cap` of those
   * kept from the whole input.
   */
  lemma KeptIsCapped(xs: seq<string>, j: nat, kept: seq<string>, cap: nat)
    requires j <= |xs| && kept == UniqueNonEmpty(xs[..j]) && |kept| <= cap
    requires |kept| == cap || j == |xs|
    ensures Take(UniqueNonEmpty(xs), cap) == kept
  {
    UniqueNonEmptyExtends(xs[..j], xs[j..]);
    assert xs[..j] + xs[j..] == xs;
    var u := UniqueNonEmpty(xs);
    if |kept| == cap {
      assert Take(u, cap) == u[..cap];
    } else {
      assert xs[..j] == xs;
      assert Take(u, cap) == u[..|u|] == u;
    }
  }

  /**
   * The inner loop of `main`: normalises each ranked chunk, skips empty and already seen texts, and
   * stops once `TOP_SUBSECTIONS` entries were added.
   */
  method AddSubsections(document: string, page: int, subsections: seq<(string, real)>) returns (added: seq<SubsectionEntry>)
    ensures added == SubsectionEntries(document, page, subsections)
  {
    ghost var refined := RefinedTexts(subsections);
    ghost var kept: seq<string> := [];
    var seenTexts: set<string> := {};
    var addedCount := 0;
    added := [];
    var j := 0;
    while j < |subsections|
      invariant j <= |subsections|
      invariant kept == UniqueNonEmpty(refined[..j])
      invariant addedCount == |kept| <= Config.TopSubsections
      invariant forall x :: x in seenTexts <==> x in kept
      invariant added == Entries(document, page, kept)
    {
      if addedCount >= Config.TopSubsections {
        break;
      }
      seenTexts, added, addedCount, kept := AddSubsection(document, page, subsections, j, seenTexts, added, addedCount, kept);
      j := j + 1;
    }
    KeptIsCapped(refined, j, kept, Config.TopSubsections);
  }

  /**
   * One iteration of the inner loop: the `j`-th chunk's clean text is added when it is non-empty and
   * not seen before.
   */
  method AddSubsection(document: string, page: int, subsections: seq<(string, real)>, j: nat,
                       seenTexts: set<string>, added: seq<SubsectionEntry>, addedCount: nat, ghost kept: seq<string>)
    returns (seenTexts': set<string>, added': seq<SubsectionEntry>, addedCount': nat, ghost kept': seq<string>)
    requires j < |subsections| && kept == UniqueNonEmpty(RefinedTexts(subsections)[..j])
    requires addedCount == |kept|
    requires forall x :: x in seenTexts <==> x in kept
    requires added == Entries(document, page, kept)
    ensures kept' == UniqueNonEmpty(RefinedTexts(subsections)[..j + 1])
    ensures addedCount' == |kept'| <= |kept| + 1
    ensures forall x :: x in seenTexts' <==> x in kept'
    ensures added' == Entries(document, page, kept')
  {
    var cleanText := CleanText(subsections, j);
    KeepStep(RefinedTexts(subsections), j, kept, cleanText);
    if cleanText != "" && cleanText !in seenTexts {
      EntriesAppend(document, page, kept, cleanText);
      seenTexts' := seenTexts + {cleanText};
      added' := added + [SubsectionEntry(document, cleanText, page)];
      addedCount' := addedCount + 1;
      kept' := kept + [cleanText];
    } else {
      seenTexts', added', addedCount', kept' := seenTexts, added, addedCount, kept;
    }
  }

  /** `clean_text` of the `j`-th ranked chunk: its whitespace runs collapsed to one space, then stripped. */
  method CleanText(subsections: seq<(string, real)>, j: nat) returns (cleanText: string)
    requires j < |subsections|
    ensures cleanText == RefinedTexts(subsections)[j]
  {
    cleanText := Normalize(subsections[j].0);
    RefinedTextsAt(subsections, j);
  }

  // ---------------------------------------------------------------------------------------------
  // The report

  /** The PDF under a document's name; a file that is not there cannot be opened either. */
  function PdfAt(pdfs: map<string, PdfFile>, document: string): PdfFile
  {
    if document in pdfs then pdfs[document] else Unreadable
  }

  /** `extracted_sections` for the kept sections: the entry of the `k`-th section has rank `k`. */
  function Extracted(top: seq<SectionResult>): seq<ExtractedSection>
  {
    if top == [] then []
    else
      var item := top[|top| - 1];
      Extracted(top[..|top| - 1]) + [ExtractedSection(item.document, item.section.text, |top|, item.section.page)]
  }

  /** The subsection entries written for one kept section. */
  function SectionSubsections(item: SectionResult, pdfs: map<string, PdfFile>, persona: string, job: string,
                              emb: Embedder): seq<SubsectionEntry>
  {
    var content := SectionText(PdfAt(pdfs, item.document), item.section.page, item.section.endPage);
    SubsectionEntries(item.document, item.section.page, SubsectionRanking(content, persona, job, emb))
  }

  /** The per-section entries as a function of the kept section. */
  function SectionBlock(pdfs: map<string, PdfFile>, persona: string, job: string, emb: Embedder): SectionResult -> seq<SubsectionEntry>
  {
    item => SectionSubsections(item, pdfs, persona, job, emb)
  }

  /** The blocks of the kept sections, section after section. */
  function Blocks(top: seq<SectionResult>, block: SectionResult -> seq<SubsectionEntry>): seq<SubsectionEntry>
  {
    if top == [] then [] else Blocks(top[..|top| - 1], block) + block(top[|top| - 1])
  }

  /** `subsection_analysis` for the kept sections. */
  function Analysis(top: seq<SectionResult>, pdfs: map<string, PdfFile>, persona: string, job: string,
                    emb: Embedder): seq<SubsectionEntry>
  {
    Blocks(top, SectionBlock(pdfs, persona, job, emb))
  }

  /**
   * Entry `i` of `extracted_sections` describes kept section `i`: its document, its heading text, its
   * start page, and the rank `i + 1`.
   */
  lemma {:induction false} ExtractedRanksRunFromOne(top: seq<SectionResult>)
    ensures var r := Extracted(top);
      && |r| == |top|
      && forall i :: 0 <= i < |r| ==>
           && r[i].importanceRank == i + 1
           && r[i].pageNumber == top[i].section.page
           && r[i].sectionTitle == top[i].section.text
           && r[i].document == top[i].document
  {
    if top != [] {
      var init := top[..|top| - 1];
      ExtractedRanksRunFromOne(init);
      var r := Extracted(top);
      forall i | 0 <= i < |r| - 1
        ensures r[i] == Extracted(init)[i] && top[i] == init[i]
      {
      }
    }
  }

  /** With at most `cap` entries per block, the blocks hold at most `cap` entries per section. */
  lemma {:induction false} BlocksBounded(top: seq<SectionResult>, block: SectionResult -> seq<SubsectionEntry>, cap: nat)
    requires forall t :: t in top ==> |block(t)| <= cap
    ensures |Blocks(top, block)| <= cap * |top|
  {
    if top != [] {
      var init := top[..|top| - 1];
      assert forall t :: t in init ==> t in top;
      BlocksBounded(init, block, cap);
      assert top[|top| - 1] in top;
      assert cap * |top| == cap * |init| + cap;
    }
  }

  /** Every entry of the blocks comes from the block of one section. */
  lemma {:induction false} BlocksMembers(top: seq<SectionResult>, block: SectionResult -> seq<SubsectionEntry>)
    ensures forall e :: e in Blocks(top, block) ==> exists i :: 0 <= i < |top| && e in block(top[i])
  {
    if top != [] {
      var init := top[..|top| - 1];
      BlocksMembers(init, block);
      forall e | e in Blocks(top, block) ensures exists i :: 0 <= i < |top| && e in block(top[i]) {
        if e !in block(top[|top| - 1]) {
          assert e in Blocks(init, block);
          var i :| 0 <= i < |init| && e in block(init[i]);
          assert top[i] == init[i];
        }
      }
    }
  }

  /** Every entry of a section's subsection list names the section's document and start page. */
  lemma SectionSubsectionsBelongToSection(item: SectionResult, pdfs: map<string, PdfFile>, persona: string,
                                          job: string, emb: Embedder)
    ensures forall e :: e in SectionSubsections(item, pdfs, persona, job, emb) ==>
      e.document == item.document && e.pageNumber == item.section.page && e.refinedText != ""
  {
    var content := SectionText(PdfAt(pdfs, item.document), item.section.page, item.section.endPage);
    SubsectionEntriesFacts(item.document, item.section.page, SubsectionRanking(content, persona, job, emb));
  }

  /**
   * The loop of `main` over the kept sections: numbers them from 1, extracts each section's text, ranks
   * its paragraphs and adds the distinct refined ones.
   */
  method BuildReport(top: seq<SectionResult>, pdfs: map<string, PdfFile>, persona: string, job: string, emb: Embedder)
    returns (extracted: seq<ExtractedSection>, analysis: seq<SubsectionEntry>)
    ensures extracted == Extracted(top)
    ensures analysis == Analysis(top, pdfs, persona, job, emb)
  {
    extracted := [];
    analysis := [];
    ghost var block := SectionBlock(pdfs, persona, job, emb);
    for k := 0 to |top|
      invariant extracted == Extracted(top[..k])
      invariant analysis == Blocks(top[..k], block)
    {
      var item := top[k];
      var entry := ExtractedSection(item.document, item.section.text, k + 1, item.section.page);
      var added := SectionReport(item, pdfs, persona, job, emb);
      ReportStep(top, k, block, extracted, analysis, entry, added);
      extracted := extracted + [entry];
      analysis := analysis + added;
    }
    assert top[..|top|] == top;
  }

  /** One more kept section extends both lists by its own entries. */
  lemma ReportStep(top: seq<SectionResult>, k: nat, block: SectionResult -> seq<SubsectionEntry>,
                   extracted: seq<ExtractedSection>, analysis: seq<SubsectionEntry>,
                   entry: ExtractedSection, added: seq<SubsectionEntry>)
    requires k < |top| && extracted == Extracted(top[..k]) && analysis == Blocks(top[..k], block)
    requires entry == ExtractedSection(top[k].document, top[k].section.text, k + 1, top[k].section.page)
    requires added == block(top[k])
    ensures extracted + [entry] == Extracted(top[..k + 1])
    ensures analysis + added == Blocks(top[..k + 1], block)
  {
    assert top[..k + 1][..k] == top[..k];
  }

  /** One iteration of the loop over the kept sections: the section's text, its ranked paragraphs, and the entries added. */
  method SectionReport(item: SectionResult, pdfs: map<string, PdfFile>, persona: string, job: string, emb: Embedder)
    returns (added: seq<SubsectionEntry>)
    ensures added == SectionSubsections(item, pdfs, persona, job, emb)
  {
    var section := item.section;
    var content := ExtractSectionContent(PdfAt(pdfs, item.document), section.page, section.endPage);
    var subsections := ExtractSubsections(content, persona, job, emb);
    added := AddSubsections(item.document, section.page, subsections);
  }

  /** The report `main` writes for the listed documents. */
  function JobReport(documents: seq<string>, outlines: map<string, Outline>, pdfs: map<string, PdfFile>,
                     persona: string, job: string, emb: Embedder): Report
  {
    var top := TopSections(Collected(documents, outlines, pdfs, persona, job, emb));
    Report(documents, persona, job, Extracted(top), Analysis(top, pdfs, persona, job, emb))
  }

  /** `main`: collect, sort, keep the best sections, and build the report. */
  method ProcessJob(documents: seq<string>, outlines: map<string, Outline>, pdfs: map<string, PdfFile>,
                    persona: string, job: string, emb: Embedder) returns (report: Report)
    ensures report == JobReport(documents, outlines, pdfs, persona, job, emb)
  {
    var all := CollectSections(documents, outlines, pdfs, persona, job, emb);
    all := SortByKeyDesc(all, SectionScore);
    var top := Take(all, Config.TopSections);
    var extracted, analysis := BuildReport(top, pdfs, persona, job, emb);
    report := Report(documents, persona, job, extracted, analysis);
  }

  /**
   * The report lists every input document and has one extracted section per kept section: at most
   * `TOP_SECTIONS`, ranked 1, 2, ..., each from a document whose outline and PDF both exist.
   */
  lemma JobReportSections(documents: seq<string>, outlines: map<string, Outline>, pdfs: map<string, PdfFile>,
                          persona: string, job: string, emb: Embedder)
    ensures var report := JobReport(documents, outlines, pdfs, persona, job, emb);
      var x := report.extractedSections;
      && report.inputDocuments == documents
      && |x| == Min(Config.TopSections, |Collected(documents, outlines, pdfs, persona, job, emb)|)
      && (forall i :: 0 <= i < |x| ==> x[i].importanceRank == i + 1)
      && (forall i :: 0 <= i < |x| ==> x[i].document in documents && x[i].document in outlines && x[i].document in pdfs)
  {
    var all := Collected(documents, outlines, pdfs, persona, job, emb);
    CollectedFromPresentDocuments(documents, outlines, pdfs, persona, job, emb);
    ExtractedFromPresentDocuments(all, documents, outlines.Keys, pdfs.Keys);
  }

  /** The extracted sections of sections from present documents are ranked 1, 2, … and come from present documents. */
  lemma ExtractedFromPresentDocuments(all: seq<SectionResult>, documents: seq<string>, outlines: set<string>, pdfs: set<string>)
    requires forall r :: r in all ==> r.document in documents && r.document in outlines && r.document in pdfs
    ensures var x := Extracted(TopSections(all));
      && |x| == Min(Config.TopSections, |all|)
      && (forall i :: 0 <= i < |x| ==> x[i].importanceRank == i + 1)
      && (forall i :: 0 <= i < |x| ==> x[i].document in documents && x[i].document in outlines && x[i].document in pdfs)
  {
    var top := TopSections(all);
    var x := Extracted(top);
    ExtractedRanksRunFromOne(top);
    TopSectionsAreTheBest(all);
    forall i | 0 <= i < |x| ensures x[i].document in documents && x[i].document in outlines && x[i].document in pdfs {
      assert top[i] in top;
    }
  }

  /**
   * At most `TOP_SUBSECTIONS` subsection entries per extracted section, each carrying the document and
   * start page of one extracted section.
   */
  lemma JobReportSubsections(documents: seq<string>, outlines: map<string, Outline>, pdfs: map<string, PdfFile>,
                             persona: string, job: string, emb: Embedder)
    ensures var report := JobReport(documents, outlines, pdfs, persona, job, emb);
      var x := report.extractedSections;
      && |report.subsectionAnalysis| <= Config.TopSubsections * |x|
      && (forall e :: e in report.subsectionAnalysis ==>
            exists i :: 0 <= i < |x| && e.document == x[i].document && e.pageNumber == x[i].pageNumber)
  {
    var top := TopSections(Collected(documents, outlines, pdfs, persona, job, emb));
    ReportSubsections(top, pdfs, persona, job, emb);
  }

  lemma ReportSubsections(top: seq<SectionResult>, pdfs: map<string, PdfFile>, persona: string, job: string, emb: Embedder)
    ensures var x := Extracted(top);
      var a := Analysis(top, pdfs, persona, job, emb);
      && |a| <= Config.TopSubsections * |x|
      && (forall e :: e in a ==> exists i :: 0 <= i < |x| && e.document == x[i].document && e.pageNumber == x[i].pageNumber)
  {
    var block := SectionBlock(pdfs, persona, job, emb);
    var x := Extracted(top);
    ExtractedRanksRunFromOne(top);
    assert |Blocks(top, block)| <= Config.TopSubsections * |top| by {
      forall t | t in top ensures |block(t)| <= Config.TopSubsections {
      }
      BlocksBounded(top, block, Config.TopSubsections);
    }
    BlocksMembers(top, block);
    forall e | e in Blocks(top, block)
      ensures exists i :: 0 <= i < |x| && e.document == x[i].document && e.pageNumber == x[i].pageNumber
    {
      var i :| 0 <= i < |top| && e in block(top[i]);
      SectionSubsectionsBelongToSection(top[i], pdfs, persona, job, emb);
      assert e.document == x[i].document && e.pageNumber == x[i].pageNumber;
    }
  }
}
