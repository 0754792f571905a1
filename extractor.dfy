/**
 * The heading filter and the page-range reader of `ContentExtractor` (src/extractor.py).
 * A PDF is the list of its page texts; reading a page that does not exist fails, and every failure
 * inside `extract_section_content` turns into the empty string.
 */
module Extractor {
  import opened Collections
  import opened Text
  import Config

  /**
   * One outline entry (a JSON object with `text`, `level`, `page`, and after filtering `end_page`).
   * An entry without `text` reads as the empty string, which the length check always rejects.
   */
  datatype Heading = Heading(text: string, level: string, page: int, endPage: Option<int>)

  /** A per-document outline: `title` may be absent; an absent `outline` list reads as empty. */
  datatype Outline = Outline(title: Option<string>, entries: seq<Heading>)

  /** A PDF file that exists: either it opens and has these page texts, or opening it fails. */
  datatype PdfFile = Readable(pages: seq<string>) | Unreadable

  /** Bullet prefix as the source spells it (the UTF-8 bytes of a bullet read as Windows-1252). */
  const Bullet: string := "\U{E2}\U{20AC}\U{A2}"
  const TitleLevel: string := "H0"
  const DefaultTitle: string := "Untitled"
  /** Separator between pages in extracted section text. */
  const PageSeparator: string := "\n\n"

  /** `get_total_pages`: the page count, or 0 when the file cannot be opened. */
  function TotalPages(pdf: PdfFile): nat
  {
    match pdf
    case Readable(pages) => |pages|
    case Unreadable => 0
  }

  /**
   * What `extract_section_content(pdf, startPage, endPage)` returns: pages `startPage` through
   * `min(endPage, page count)` (1-based, `endPage` defaulting to `startPage`) joined by blank lines.
   */
  function SectionText(pdf: PdfFile, startPage: int, endPage: Option<int>): string
  {
    match pdf
    case Unreadable => ""
    case Readable(pages) =>
      var lo := startPage - 1;
      var hi := Min(if endPage.Some? then endPage.value else startPage, |pages|);
      if hi <= lo then ""
      else if lo < 0 then ""
      else Join(PageSeparator, pages[lo..hi])
  }

  /** `extract_section_content`: collects the page texts one page at a time, then joins them. */
  method ExtractSectionContent(pdf: PdfFile, startPage: int, endPage: Option<int>) returns (text: string)
    ensures text == SectionText(pdf, startPage, endPage)
  {
    if pdf.Unreadable? {
      return "";
    }
    var pages := pdf.pages;
    var last := if endPage.None? then startPage else endPage.value;
    var stop := Min(last, |pages|);
    var content: seq<string> := [];
    var pageNum := startPage - 1;
    while pageNum < stop
      invariant pageNum == startPage - 1 || (0 <= startPage - 1 < pageNum <= stop && pageNum <= |pages|)
      invariant pageNum == startPage - 1 ==> content == []
      invariant pageNum != startPage - 1 ==> content == pages[startPage - 1..pageNum]
      decreases stop - pageNum
    {
      if pageNum < 0 || pageNum >= |pages| {
        // load_page raises; the handler returns the empty string
        return "";
      }
      content := content + [pages[pageNum]];
      pageNum := pageNum + 1;
    }
    text := Join(PageSeparator, content);
  }

  /** Without an end page only the start page is read. */
  lemma SectionTextDefaultsToStartPage(pdf: PdfFile, startPage: int)
    ensures SectionText(pdf, startPage, None) == SectionText(pdf, startPage, Some(startPage))
  {}

  /** A single page that exists is returned verbatim. */
  lemma SectionTextSinglePage(pages: seq<string>, page: int)
    requires 1 <= page <= |pages|
    ensures SectionText(Readable(pages), page, Some(page)) == pages[page - 1]
  {
    assert pages[page - 1..page] == [pages[page - 1]];
  }

  /** An empty page range, a start page before the first page, or an unreadable file give "". */
  lemma SectionTextEmpty(pdf: PdfFile, startPage: int, endPage: int)
    requires pdf.Unreadable? || startPage < 1 || Min(endPage, TotalPages(pdf)) < startPage
    ensures SectionText(pdf, startPage, Some(endPage)) == ""
  {}

  /**
   * Reading `[s, e]` is reading `[s, m]`, a blank line, and `[m + 1, e]`: the pages appear once
   * each, in page order.
   */
  lemma {:induction false} SectionTextSplits(pages: seq<string>, s: int, m: int, e: int)
    requires 1 <= s <= m < e <= |pages|
    ensures SectionText(Readable(pages), s, Some(e))
         == SectionText(Readable(pages), s, Some(m)) + PageSeparator + SectionText(Readable(pages), m + 1, Some(e))
  {
    assert pages[s - 1..e] == pages[s - 1..m] + pages[m..e];
    JoinConcat(PageSeparator, pages[s - 1..m], pages[m..e]);
  }

  /** `text.startswith(('•', '-', '*'))` with the bullet as spelled in the source. */
  predicate StartsWithMarker(text: string)
  {
    StartsWith(text, Bullet) || StartsWith(text, "-") || StartsWith(text, "*")
  }

  /** `text.endswith(('.', ',', ';'))`. */
  predicate EndsWithPunctuation(text: string)
  {
    EndsWith(text, ".") || EndsWith(text, ",") || EndsWith(text, ";")
  }

  /**
   * `re.match(r'^\d+\.?$', text)`: digits, an optional dot, and (because `$` also matches just
   * before a final newline) an optional final newline.
   */
  predicate IsNumeral(text: string)
  {
    var u := if |text| > 0 && text[|text| - 1] == '\n' then text[..|text| - 1] else text;
    var v := if |u| > 0 && u[|u| - 1] == '.' then u[..|u| - 1] else u;
    |v| > 0 && AllDigits(v)
  }

  predicate AllDigits(s: string)
  {
    s == [] || (IsDigit(s[0]) && AllDigits(s[1..]))
  }

  /** The five quality checks an outline entry's text must pass. */
  predicate IsMeaningful(text: string)
  {
    && |text| >= Config.MinHeadingLength
    && !IsNumeral(text)
    && !StartsWithMarker(text)
    && !EndsWithPunctuation(text)
    && HasUpper(text)
  }

  predicate KeepEntry(h: Heading) { IsMeaningful(h.text) }

  /** The synthetic first section: the document title (or "Untitled" when absent) at page 1. */
  function TitleHeading(outline: Outline): Heading
  {
    Heading(if outline.title.Some? then outline.title.value else DefaultTitle, TitleLevel, 1, None)
  }

  /** The entries that survive the filter, title first, before end pages are written. */
  function Candidates(outline: Outline): seq<Heading>
  {
    [TitleHeading(outline)] + Filter(outline.entries, KeepEntry)
  }

  /** The end page of entry `i`: the next entry's page minus one, or `totalPages` for the last entry. */
  function EndPageAt(hs: seq<Heading>, i: int, totalPages: int): int
    requires 0 <= i < |hs|
  {
    if i < |hs| - 1 then hs[i + 1].page - 1 else totalPages
  }

  /** Writes `end_page` into every entry, leaving the other fields alone. */
  function WithEndPages(hs: seq<Heading>, totalPages: int): (r: seq<Heading>)
    ensures |r| == |hs|
    ensures forall i {:trigger r[i]} :: 0 <= i < |r| ==> r[i] == hs[i].(endPage := Some(EndPageAt(hs, i, totalPages)))
  {
    if |hs| == 0 then []
    else
      var rest := WithEndPages(hs[1..], totalPages);
      var r := [hs[0].(endPage := Some(EndPageAt(hs, 0, totalPages)))] + rest;
      assert forall i :: 1 <= i < |r| ==> r[i] == rest[i - 1] && EndPageAt(hs, i, totalPages) == EndPageAt(hs[1..], i - 1, totalPages);
      r
  }

  /**
   * What `extract_meaningful_headings` returns: the title entry and the kept entries in outline
   * order, each unchanged except that `end_page` is the next entry's page minus one, or
   * `totalPages` for the last entry.
   */
  function MeaningfulHeadings(outline: Outline, totalPages: int): (r: seq<Heading>)
    ensures |r| == 1 + |Filter(outline.entries, KeepEntry)|
    ensures r[0] == TitleHeading(outline).(endPage := r[0].endPage)
    ensures forall i :: 1 <= i < |r| ==> r[i] == Filter(outline.entries, KeepEntry)[i - 1].(endPage := r[i].endPage)
    ensures forall i, j {:trigger r[i], r[j]} :: 0 <= i && j == i + 1 < |r| ==> r[i].endPage == Some(r[j].page - 1)
    ensures r[|r| - 1].endPage == Some(totalPages)
  {
    TitledWithEndPages(TitleHeading(outline), Filter(outline.entries, KeepEntry), totalPages)
  }

  /**
   * The title followed by the kept entries, with end pages written: the title comes first, the
   * entries follow in order, and the end pages chain from one entry to the next.
   */
  function TitledWithEndPages(title: Heading, kept: seq<Heading>, totalPages: int): (r: seq<Heading>)
    ensures |r| == 1 + |kept|
    ensures r[0] == title.(endPage := r[0].endPage)
    ensures forall i :: 1 <= i < |r| ==> r[i] == kept[i - 1].(endPage := r[i].endPage)
    ensures forall i, j {:trigger r[i], r[j]} :: 0 <= i && j == i + 1 < |r| ==> r[i].endPage == Some(r[j].page - 1)
    ensures r[|r| - 1].endPage == Some(totalPages)
  {
    var hs := [title] + kept;
    var r := WithEndPages(hs, totalPages);
    EndPageChain(hs, totalPages, r);
    assert forall i :: 1 <= i < |r| ==> hs[i] == kept[i - 1];
    r
  }

  /** Since only end pages change, each end page is the following entry's own page minus one. */
  lemma EndPageChain(hs: seq<Heading>, totalPages: int, r: seq<Heading>)
    requires r == WithEndPages(hs, totalPages)
    ensures forall i, j {:trigger r[i], r[j]} :: 0 <= i && j == i + 1 < |r| ==> r[i].endPage == Some(r[j].page - 1)
    ensures |r| > 0 ==> r[|r| - 1].endPage == Some(totalPages)
  {
  }

  /** Every entry after the title passes the five quality checks. */
  lemma MeaningfulHeadingsPassChecks(outline: Outline, totalPages: int)
    ensures var r := MeaningfulHeadings(outline, totalPages);
      forall i :: 1 <= i < |r| ==> IsMeaningful(r[i].text)
  {
    var r := MeaningfulHeadings(outline, totalPages);
    var kept := Filter(outline.entries, KeepEntry);
    forall i | 1 <= i < |r| ensures IsMeaningful(r[i].text) {
      assert kept[i - 1] in kept;
    }
  }

  /**
   * `extract_meaningful_headings`: appends the title and every entry that passes the filter, then
   * writes `end_page` into each entry in place.
   */
  method ExtractMeaningfulHeadings(outline: Outline, totalPages: int) returns (headings: seq<Heading>)
    ensures headings == MeaningfulHeadings(outline, totalPages)
  {
    var candidates := CollectCandidates(outline);
    headings := FillEndPages(candidates, totalPages);
  }

  /** The first loop of `extract_meaningful_headings`: the title, then every entry that passes the filter. */
  method CollectCandidates(outline: Outline) returns (headings: seq<Heading>)
    ensures headings == Candidates(outline)
  {
    headings := [TitleHeading(outline)];
    var entries := outline.entries;
    for i := 0 to |entries|
      invariant headings == [TitleHeading(outline)] + Filter(entries[..i], KeepEntry)
    {
      var item := entries[i];
      FilterPrefixStep(entries, i, KeepEntry);
      if KeepEntry(item) {
        headings := headings + [item];
      }
    }
    assert entries[..|entries|] == entries;
  }

  /** The second loop of `extract_meaningful_headings`: writes each entry's `end_page` in place. */
  method FillEndPages(candidates: seq<Heading>, totalPages: int) returns (headings: seq<Heading>)
    ensures headings == WithEndPages(candidates, totalPages)
  {
    headings := candidates;
    for i := 0 to |headings|
      invariant |headings| == |candidates|
      invariant forall k :: 0 <= k < i ==> headings[k] == candidates[k].(endPage := Some(EndPageAt(candidates, k, totalPages)))
      invariant forall k :: i <= k < |headings| ==> headings[k] == candidates[k]
    {
      if i < |headings| - 1 {
        headings := headings[i := headings[i].(endPage := Some(headings[i + 1].page - 1))];
      } else {
        headings := headings[i := headings[i].(endPage := Some(totalPages))];
      }
    }
  }

  /** Kept entries keep their relative order from the outline. */
  lemma KeptEntriesInOutlineOrder(outline: Outline)
    ensures IsSubseq(Filter(outline.entries, KeepEntry), outline.entries)
    ensures forall e :: e in outline.entries ==> (e in Filter(outline.entries, KeepEntry) <==> IsMeaningful(e.text))
  {
    FilterIsSubseq(outline.entries, KeepEntry);
  }

  /**
   * The length threshold is inclusive: shorter texts are always rejected, and a text of exactly the
   * threshold length is kept whenever it passes the other four checks.
   */
  lemma MinHeadingLengthBoundary()
    ensures forall t :: |t| < Config.MinHeadingLength ==> !IsMeaningful(t)
    ensures forall t ::
      (|t| == Config.MinHeadingLength && !IsNumeral(t) && !StartsWithMarker(t) && !EndsWithPunctuation(t) && HasUpper(t))
      ==> IsMeaningful(t)
  {
  }
}
